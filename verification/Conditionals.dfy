/**
 The conditional directives: the machine with its if-stack, nest counter and line
 push-back, and the tree of nested conditionals it is meant to follow.
 */
module Conditionals {
  import opened Wrappers
  import opened MacroTable

  datatype Kind = If | IfDef | IfNDef

  /** One input line, with the directive word already recognised. */
  datatype Line =
    | Text(text: string)
    | Define(name: string, body: string)
    | Undef(name: string)
    | Open(kind: Kind, name: string)
    | Elif(text: string)
    | Else
    | EndIf

  datatype IfState = ExpectElse | ExpectEndIf

  /** Lines to come (a pushed-back line first), if-stack (innermost first),
      macros, and the text lines passed on so far. */
  datatype State = State(lines: seq<Line>, stack: seq<IfState>, macros: Macros, out: seq<string>)

  // --------------------------------------------------------------- the machine

  /**
   Skipping: the lines from the one that stops the skip; None at the end of the
   file.  With `toElse` an else stops it too.
   */
  function SkipTo(lines: seq<Line>, nest: nat, toElse: bool): (r: Option<seq<Line>>)
    ensures r.Some? ==> 0 < |r.value| <= |lines|
  {
    if lines == [] then None
    else
      match lines[0]
      case Open(_, _) => SkipTo(lines[1..], nest + 1, toElse)
      case EndIf => if nest > 0 then SkipTo(lines[1..], nest - 1, toElse) else Some(lines)
      case Else => if nest == 0 && toElse then Some(lines) else SkipTo(lines[1..], nest, toElse)
      case Elif(_) => if nest == 0 then Some(lines) else SkipTo(lines[1..], nest, toElse)
      case _ => SkipTo(lines[1..], nest, toElse)
  }

  function HandleCond(s: State, c: bool): Option<State>
  {
    if c then Some(s.(stack := [ExpectEndIf] + s.stack))
    else
      var rest := SkipTo(s.lines, 0, true);
      if rest.None? then None
      else Some(s.(lines := rest.value, stack := [ExpectElse] + s.stack))
  }

  function HandleElse(s: State): Option<State>
  {
    if s.stack == [] then None
    else if s.stack[0] == ExpectElse then Some(s.(stack := [ExpectEndIf] + s.stack[1..]))
    else
      var rest := SkipTo(s.lines, 0, false);
      if rest.None? then None else Some(s.(lines := rest.value))
  }

  function HandleEndIf(s: State): Option<State>
  {
    if s.stack == [] then None else Some(s.(stack := s.stack[1..]))
  }

  /** One line; None when the preprocessor stops with an error. */
  function Step(s: State): (r: Option<State>)
    requires s.lines != []
  {
    var s1 := s.(lines := s.lines[1..]);
    match s.lines[0]
    case Text(text) => Some(s1.(out := s.out + [text]))
    case Define(name, body) =>
      var m := DefineMacro(s.macros, name, -1, body);
      if m.None? then None else Some(s1.(macros := m.value))
    case Undef(name) => Some(s1.(macros := s.macros - {name}))
    case Open(kind, name) =>
      if kind.If? then None
      else HandleCond(s1, if kind.IfDef? then name in s.macros else name !in s.macros)
    case Elif(_) => None
    case Else => HandleElse(s1)
    case EndIf => HandleEndIf(s1)
  }

  lemma StepConsumes(s: State)
    requires s.lines != []
    ensures Step(s).Some? ==> |Step(s).value.lines| < |s.lines|
  {
  }

  /** The whole input; an if-stack that does not end empty is an error. */
  function Run(s: State): Option<State>
    decreases |s.lines|
  {
    if s.lines == [] then (if s.stack == [] then Some(s) else None)
    else
      var r := Step(s);
      StepConsumes(s);
      if r.None? then None else Run(r.value)
  }

  // ----------------------------------------------------------------- the trees

  datatype Tree =
    | Plain(text: string)
    | Def(name: string, body: string)
    | Und(name: string)
    | Cond(kind: Kind, name: string, yes: seq<Tree>, hasElse: bool, alt: seq<Tree>)  // alt is empty without an else

  function Lines(t: Tree): seq<Line>
    decreases t
  {
    match t
    case Plain(text) => [Text(text)]
    case Def(name, body) => [Define(name, body)]
    case Und(name) => [Undef(name)]
    case Cond(kind, name, yes, hasElse, alt) =>
      [Open(kind, name)] + AllLines(yes) + (if hasElse then [Else] + AllLines(alt) else []) + [EndIf]
  }

  function AllLines(ts: seq<Tree>): seq<Line>
    decreases ts
  {
    if ts == [] then [] else Lines(ts[0]) + AllLines(ts[1..])
  }

  datatype Result = Result(macros: Macros, out: seq<string>)

  /** What a program means: only live lines count.  None is an error. */
  function Meaning(t: Tree, m: Macros): Option<Result>
    decreases t
  {
    match t
    case Plain(text) => Some(Result(m, [text]))
    case Def(name, body) =>
      var d := DefineMacro(m, name, -1, body);
      if d.None? then None else Some(Result(d.value, []))
    case Und(name) => Some(Result(m - {name}, []))
    case Cond(kind, name, yes, hasElse, alt) =>
      if kind.If? then None
      else if (name in m) == kind.IfDef? then AllMeaning(yes, m)
      else if hasElse then AllMeaning(alt, m)
      else Some(Result(m, []))
  }

  function AllMeaning(ts: seq<Tree>, m: Macros): Option<Result>
    decreases ts
  {
    if ts == [] then Some(Result(m, []))
    else
      var first := Meaning(ts[0], m);
      if first.None? then None
      else
        var rest := AllMeaning(ts[1..], first.value.macros);
        if rest.None? then None else Some(Result(rest.value.macros, first.value.out + rest.value.out))
  }

  function Tail(hasElse: bool, alt: seq<Tree>, rest: seq<Line>): seq<Line>
  {
    (if hasElse then [Else] + AllLines(alt) else []) + ([EndIf] + rest)
  }

  lemma LinesOfCond(kind: Kind, name: string, yes: seq<Tree>, hasElse: bool, alt: seq<Tree>, rest: seq<Line>)
    ensures Lines(Cond(kind, name, yes, hasElse, alt)) + rest == [Open(kind, name)] + (AllLines(yes) + Tail(hasElse, alt, rest))
    ensures hasElse ==> Tail(hasElse, alt, rest) == [Else] + (AllLines(alt) + ([EndIf] + rest))
    ensures !hasElse ==> Tail(hasElse, alt, rest) == [EndIf] + rest
  {
  }

  // ----------------------------------------------- skipping follows the nesting

  lemma SkipFirst(l: Line, rest: seq<Line>, nest: nat, toElse: bool)
    ensures SkipTo([l] + rest, nest, toElse) ==
      match l
      case Open(_, _) => SkipTo(rest, nest + 1, toElse)
      case EndIf => if nest > 0 then SkipTo(rest, nest - 1, toElse) else Some([l] + rest)
      case Else => if nest == 0 && toElse then Some([l] + rest) else SkipTo(rest, nest, toElse)
      case Elif(_) => if nest == 0 then Some([l] + rest) else SkipTo(rest, nest, toElse)
      case _ => SkipTo(rest, nest, toElse)
  {
    assert ([l] + rest)[1..] == rest;
  }

  /** A whole tree is skipped, at any depth. */
  lemma {:induction false} SkipsTree(t: Tree, rest: seq<Line>, nest: nat, toElse: bool)
    ensures SkipTo(Lines(t) + rest, nest, toElse) == SkipTo(rest, nest, toElse)
    decreases t
  {
    hide SkipTo;
    match t {
      case Plain(text) => SkipFirst(Text(text), rest, nest, toElse);
      case Def(name, body) => SkipFirst(Define(name, body), rest, nest, toElse);
      case Und(name) => SkipFirst(Undef(name), rest, nest, toElse);
      case Cond(kind, name, yes, hasElse, alt) =>
        var close := [EndIf] + rest;
        hide Lines, AllLines;
        LinesOfCond(kind, name, yes, hasElse, alt, rest);
        SkipFirst(EndIf, rest, nest + 1, toElse);
        if hasElse {
          var tail := [Else] + (AllLines(alt) + close);
          SkipFirst(Open(kind, name), AllLines(yes) + tail, nest, toElse);
          SkipsAll(yes, tail, nest + 1, toElse);
          SkipFirst(Else, AllLines(alt) + close, nest + 1, toElse);
          SkipsAll(alt, close, nest + 1, toElse);
        } else {
          SkipFirst(Open(kind, name), AllLines(yes) + close, nest, toElse);
          SkipsAll(yes, close, nest + 1, toElse);
        }
    }
  }

  lemma {:induction false} SkipsAll(ts: seq<Tree>, rest: seq<Line>, nest: nat, toElse: bool)
    ensures SkipTo(AllLines(ts) + rest, nest, toElse) == SkipTo(rest, nest, toElse)
    decreases ts
  {
    if ts == [] {
      assert AllLines(ts) + rest == rest;
    } else {
      SkipsTree(ts[0], AllLines(ts[1..]) + rest, nest, toElse);
      SkipsAll(ts[1..], rest, nest, toElse);
      assert AllLines(ts) + rest == Lines(ts[0]) + (AllLines(ts[1..]) + rest);
    }
  }

  // ------------------------------------------------------ the machine follows it

  /** The machine after a program: an error, or on with the rest. */
  function After(r: Option<Result>, rest: seq<Line>, stack: seq<IfState>, out: seq<string>): Option<State>
  {
    if r.None? then None else Run(State(rest, stack, r.value.macros, out + r.value.out))
  }

  lemma RunStep(l: Line, rest: seq<Line>, stack: seq<IfState>, m: Macros, out: seq<string>)
    ensures var r := Step(State([l] + rest, stack, m, out));
      Run(State([l] + rest, stack, m, out)) == if r.None? then None else Run(r.value)
    ensures State([l] + rest, stack, m, out).(lines := ([l] + rest)[1..]) == State(rest, stack, m, out)
  {
    assert ([l] + rest)[1..] == rest;
  }

  lemma {:induction false} FollowsTree(t: Tree, rest: seq<Line>, stack: seq<IfState>, m: Macros, out: seq<string>)
    ensures Run(State(Lines(t) + rest, stack, m, out)) == After(Meaning(t, m), rest, stack, out)
    decreases t
  {
    match t {
      case Plain(text) => RunStep(Text(text), rest, stack, m, out);
      case Def(name, body) =>
        RunStep(Define(name, body), rest, stack, m, out);
        assert out + [] == out;
      case Und(name) =>
        RunStep(Undef(name), rest, stack, m, out);
        assert out + [] == out;
      case Cond(kind, name, yes, hasElse, alt) =>
        if !kind.If? {
          if (name in m) == kind.IfDef? {
            TakesYes(kind, name, yes, hasElse, alt, rest, stack, m, out);
          } else {
            TakesAlt(kind, name, yes, hasElse, alt, rest, stack, m, out);
          }
        } else {
          assert Lines(t) + rest == [Open(kind, name)] + (Lines(t)[1..] + rest);
          RunStep(Open(kind, name), Lines(t)[1..] + rest, stack, m, out);
        }
    }
  }

  /** #endif takes the innermost condition off the stack. */
  lemma Closes(rest: seq<Line>, state: IfState, stack: seq<IfState>, m: Macros, out: seq<string>)
    ensures Run(State([EndIf] + rest, [state] + stack, m, out)) == Run(State(rest, stack, m, out))
  {
    RunStep(EndIf, rest, [state] + stack, m, out);
    assert ([state] + stack)[1..] == stack;
  }

  /** Behind a live first branch the alternative is skipped. */
  lemma PassesTail(hasElse: bool, alt: seq<Tree>, rest: seq<Line>, stack: seq<IfState>, m: Macros, out: seq<string>)
    ensures Run(State(Tail(hasElse, alt, rest), [ExpectEndIf] + stack, m, out)) == Run(State(rest, stack, m, out))
  {
    hide SkipTo, Run;
    LinesOfCond(If, "", [], hasElse, alt, rest);
    Closes(rest, ExpectEndIf, stack, m, out);
    if hasElse {
      var lines := AllLines(alt) + ([EndIf] + rest);
      RunStep(Else, lines, [ExpectEndIf] + stack, m, out);
      SkipsAll(alt, [EndIf] + rest, 0, false);
      SkipFirst(EndIf, rest, 0, false);
    }
  }

  lemma {:induction false} TakesYes(kind: Kind, name: string, yes: seq<Tree>, hasElse: bool, alt: seq<Tree>,
                                    rest: seq<Line>, stack: seq<IfState>, m: Macros, out: seq<string>)
    requires !kind.If? && (name in m) == kind.IfDef?
    ensures Run(State(Lines(Cond(kind, name, yes, hasElse, alt)) + rest, stack, m, out)) == After(AllMeaning(yes, m), rest, stack, out)
    decreases yes, 1
  {
    hide SkipTo, Run;
    LinesOfCond(kind, name, yes, hasElse, alt, rest);
    RunStep(Open(kind, name), AllLines(yes) + Tail(hasElse, alt, rest), stack, m, out);
    FollowsAll(yes, Tail(hasElse, alt, rest), [ExpectEndIf] + stack, m, out);
    var r := AllMeaning(yes, m);
    if r.Some? { PassesTail(hasElse, alt, rest, stack, r.value.macros, out + r.value.out); }
  }

  lemma {:induction false} TakesAlt(kind: Kind, name: string, yes: seq<Tree>, hasElse: bool, alt: seq<Tree>,
                                    rest: seq<Line>, stack: seq<IfState>, m: Macros, out: seq<string>)
    requires !kind.If? && (name in m) != kind.IfDef?
    ensures Run(State(Lines(Cond(kind, name, yes, hasElse, alt)) + rest, stack, m, out))
         == After(if hasElse then AllMeaning(alt, m) else Some(Result(m, [])), rest, stack, out)
    decreases alt, 1
  {
    hide SkipTo, Run;
    LinesOfCond(kind, name, yes, hasElse, alt, rest);
    RunStep(Open(kind, name), AllLines(yes) + Tail(hasElse, alt, rest), stack, m, out);
    SkipsAll(yes, Tail(hasElse, alt, rest), 0, true);
    if hasElse {
      var close := [EndIf] + rest;
      SkipFirst(Else, AllLines(alt) + close, 0, true);
      RunStep(Else, AllLines(alt) + close, [ExpectElse] + stack, m, out);
      assert [ExpectEndIf] + ([ExpectElse] + stack)[1..] == [ExpectEndIf] + stack;
      FollowsAll(alt, close, [ExpectEndIf] + stack, m, out);
      var r := AllMeaning(alt, m);
      if r.Some? { Closes(rest, ExpectEndIf, stack, r.value.macros, out + r.value.out); }
    } else {
      SkipFirst(EndIf, rest, 0, true);
      Closes(rest, ExpectElse, stack, m, out);
      assert out + [] == out;
    }
  }

  lemma AllLinesStep(ts: seq<Tree>, rest: seq<Line>)
    ensures AllLines(ts) + rest == if ts == [] then rest else Lines(ts[0]) + (AllLines(ts[1..]) + rest)
  {
    if ts != [] {
      var a, b := Lines(ts[0]), AllLines(ts[1..]);
      hide Lines;
      assert a + b + rest == a + (b + rest);
    }
  }

  lemma {:induction false} FollowsAll(ts: seq<Tree>, rest: seq<Line>, stack: seq<IfState>, m: Macros, out: seq<string>)
    ensures Run(State(AllLines(ts) + rest, stack, m, out)) == After(AllMeaning(ts, m), rest, stack, out)
    decreases ts, 0
  {
    hide Run, AllLines, Lines, Meaning;
    AllLinesStep(ts, rest);
    if ts == [] {
      assert out + [] == out;
    } else {
      var lines := AllLines(ts[1..]) + rest;
      FollowsTree(ts[0], lines, stack, m, out);
      var r := Meaning(ts[0], m);
      if r.Some? {
        FollowsAll(ts[1..], rest, stack, r.value.macros, out + r.value.out);
        var q := AllMeaning(ts[1..], r.value.macros);
        if q.Some? { assert out + r.value.out + q.value.out == out + (r.value.out + q.value.out); }
      }
    }
  }

  /**
   Every well-nested input is processed as its tree says: exactly the live text is
   passed on, the macros are those the live directives leave, the if-stack ends
   empty; and the machine stops with an error exactly when the tree means one.
   */
  lemma FollowsTheTree(ts: seq<Tree>, m: Macros)
    ensures Run(State(AllLines(ts), [], m, []))
         == match AllMeaning(ts, m) case None => None case Some(r) => Some(State([], [], r.macros, r.out))
  {
    FollowsAll(ts, [], [], m, []);
    assert AllLines(ts) + [] == AllLines(ts);
    var r := AllMeaning(ts, m);
    if r.Some? { assert [] + r.value.out == r.value.out; }
  }

  // ------------------------------------------------------- more than one #else

  function Elses(more: seq<seq<Tree>>): seq<Line>
  {
    if more == [] then [] else [Else] + AllLines(more[0]) + Elses(more[1..])
  }

  lemma ElsesStep(more: seq<seq<Tree>>, end: seq<Line>)
    ensures Elses(more) + end ==
      if more == [] then end else [Else] + (AllLines(more[0]) + (Elses(more[1..]) + end))
  {
    if more != [] { Associate([Else], AllLines(more[0]), Elses(more[1..]), end); }
  }

  lemma Associate(a: seq<Line>, b: seq<Line>, c: seq<Line>, d: seq<Line>)
    ensures a + b + c + d == a + (b + (c + d))
  {
  }

  lemma {:induction false} SkipsElses(more: seq<seq<Tree>>, rest: seq<Line>)
    ensures SkipTo(Elses(more) + ([EndIf] + rest), 0, false) == Some([EndIf] + rest)
  {
    hide SkipTo, Elses, AllLines;
    ElsesStep(more, [EndIf] + rest);
    if more == [] {
      SkipFirst(EndIf, rest, 0, false);
    } else {
      var tail := Elses(more[1..]) + ([EndIf] + rest);
      SkipFirst(Else, AllLines(more[0]) + tail, 0, false);
      SkipsAll(more[0], tail, 0, false);
      SkipsElses(more[1..], rest);
    }
  }

  /** Behind a live branch, the first or an alternative, every further else is skipped. */
  lemma PassesElses(more: seq<seq<Tree>>, rest: seq<Line>, stack: seq<IfState>, m: Macros, out: seq<string>)
    ensures Run(State(Elses(more) + ([EndIf] + rest), [ExpectEndIf] + stack, m, out)) == Run(State(rest, stack, m, out))
  {
    hide SkipTo, Run, Elses, AllLines;
    Closes(rest, ExpectEndIf, stack, m, out);
    ElsesStep(more, [EndIf] + rest);
    if more != [] {
      var tail := Elses(more[1..]) + ([EndIf] + rest);
      RunStep(Else, AllLines(more[0]) + tail, [ExpectEndIf] + stack, m, out);
      SkipsAll(more[0], tail, 0, false);
      SkipsElses(more[1..], rest);
    }
  }

  /**
   A condition with several else parts is no error: whether it holds or not, all but
   the first of them are dead.
   */
  lemma LaterElsesAreDead(kind: Kind, name: string, yes: seq<Tree>, alt: seq<Tree>, more: seq<seq<Tree>>,
                          rest: seq<Line>, stack: seq<IfState>, m: Macros, out: seq<string>)
    requires !kind.If?
    ensures Run(State([Open(kind, name)] + (AllLines(yes) + Elses([alt] + more) + ([EndIf] + rest)), stack, m, out))
         == After(AllMeaning(if (name in m) == kind.IfDef? then yes else alt, m), rest, stack, out)
  {
    hide SkipTo, Run;
    var end := [EndIf] + rest;
    var elses := Elses([alt] + more) + end;
    var behind := Elses(more) + end;
    ElsesStep([alt] + more, end);
    assert ([alt] + more)[1..] == more;
    assert AllLines(yes) + Elses([alt] + more) + end == AllLines(yes) + elses;
    RunStep(Open(kind, name), AllLines(yes) + elses, stack, m, out);
    if (name in m) == kind.IfDef? {
      FollowsAll(yes, elses, [ExpectEndIf] + stack, m, out);
      var r := AllMeaning(yes, m);
      if r.Some? { PassesElses([alt] + more, rest, stack, r.value.macros, out + r.value.out); }
    } else {
      SkipsAll(yes, elses, 0, true);
      SkipFirst(Else, AllLines(alt) + behind, 0, true);
      RunStep(Else, AllLines(alt) + behind, [ExpectElse] + stack, m, out);
      assert [ExpectEndIf] + ([ExpectElse] + stack)[1..] == [ExpectEndIf] + stack;
      FollowsAll(alt, behind, [ExpectEndIf] + stack, m, out);
      var r := AllMeaning(alt, m);
      if r.Some? { PassesElses(more, rest, stack, r.value.macros, out + r.value.out); }
    }
  }

  // ------------------------------------------- what the directives mean for a name

  lemma {:induction false} MeaningAppend(ts: seq<Tree>, us: seq<Tree>, m: Macros)
    ensures var a := AllMeaning(ts, m);
      AllMeaning(ts + us, m) ==
        if a.None? then None
        else
          var b := AllMeaning(us, a.value.macros);
          if b.None? then None else Some(Result(b.value.macros, a.value.out + b.value.out))
    decreases ts
  {
    if ts == [] {
      assert ts + us == us;
      var b := AllMeaning(us, m);
      if b.Some? { assert [] + b.value.out == b.value.out; }
    } else {
      assert (ts + us)[0] == ts[0] && (ts + us)[1..] == ts[1..] + us;
      hide Meaning;
      var first := Meaning(ts[0], m);
      if first.Some? {
        MeaningAppend(ts[1..], us, first.value.macros);
        var a := AllMeaning(ts[1..], first.value.macros);
        if a.Some? {
          var b := AllMeaning(us, a.value.macros);
          if b.Some? { assert first.value.out + (a.value.out + b.value.out) == first.value.out + a.value.out + b.value.out; }
        }
      }
    }
  }

  /** A single tree as a program. */
  lemma OneTree(t: Tree, m: Macros)
    ensures AllMeaning([t], m) == Meaning(t, m)
  {
    assert [t][1..] == [];
    var r := Meaning(t, m);
    if r.Some? { assert r.value.out + [] == r.value.out; }
  }

  /** A definition behind ts: the body without the blanks around it. */
  lemma MeaningOfDefinition(ts: seq<Tree>, m: Macros, name: string, a: string, s: string, b: string)
    requires IsBlank(a) && IsBlank(b) && IsBody(s) && AllMeaning(ts, m).Some?
    ensures var r := AllMeaning(ts, m).value;
      AllMeaning(ts + [Def(name, a + s + b)], m) ==
        if PastesAtEnd(s) || (name in r.macros && r.macros[name].predef) then None
        else Some(Result(r.macros[name := Macro(-1, s, false)], r.out))
  {
    var r := AllMeaning(ts, m).value;
    MeaningAppend(ts, [Def(name, a + s + b)], m);
    OneTree(Def(name, a + s + b), r.macros);
    DefinesBody(r.macros, name, -1, a, s, b);
    assert r.out + [] == r.out;
  }

  /**
   Behind a definition `#ifdef` follows its first branch and `#ifndef` the other one,
   behind `#undef` it is the other way round.
   */
  lemma FollowsTheDefinition(name: string, body: string, m: Macros, yes: seq<Tree>, no: seq<Tree>)
    requires Meaning(Def(name, body), m).Some?
    ensures var d := Meaning(Def(name, body), m).value.macros;
      var u := Meaning(Und(name), m).value.macros;
      && AllMeaning([Def(name, body), Cond(IfDef, name, yes, true, no)], m) == AllMeaning(yes, d)
      && AllMeaning([Def(name, body), Cond(IfNDef, name, yes, true, no)], m) == AllMeaning(no, d)
      && AllMeaning([Und(name), Cond(IfDef, name, yes, true, no)], m) == AllMeaning(no, u)
      && AllMeaning([Und(name), Cond(IfNDef, name, yes, true, no)], m) == AllMeaning(yes, u)
      && AllMeaning([Def(name, body), Cond(IfNDef, name, yes, false, [])], m) == Some(Result(d, []))
      && AllMeaning([Und(name), Cond(IfDef, name, yes, false, [])], m) == Some(Result(u, []))
  {
    Behind(Def(name, body), Cond(IfDef, name, yes, true, no), m);
    Behind(Def(name, body), Cond(IfNDef, name, yes, true, no), m);
    Behind(Und(name), Cond(IfDef, name, yes, true, no), m);
    Behind(Und(name), Cond(IfNDef, name, yes, true, no), m);
    Behind(Def(name, body), Cond(IfNDef, name, yes, false, []), m);
    Behind(Und(name), Cond(IfDef, name, yes, false, []), m);
    hide AllMeaning;
  }

  /** One tree behind another that prints nothing. */
  lemma Behind(a: Tree, b: Tree, m: Macros)
    requires (a.Def? || a.Und?) && Meaning(a, m).Some?
    ensures AllMeaning([a, b], m) == Meaning(b, Meaning(a, m).value.macros)
  {
    assert [a, b][1..] == [b];
    OneTree(b, Meaning(a, m).value.macros);
    hide AllMeaning;
    assert AllMeaning([a, b], m) == AllMeaning([a] + [b], m);
    MeaningAppend([a], [b], m);
    OneTree(a, m);
    var r := Meaning(b, Meaning(a, m).value.macros);
    if r.Some? { assert [] + r.value.out == r.value.out; }
  }
}
