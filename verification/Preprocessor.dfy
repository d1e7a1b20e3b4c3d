/**
 The preprocessor object: the file being read, the pushed-back line, the if-stack
 and the definition table.  A method that returns false has stopped with an error.
 */
module Preprocessor {
  import opened Wrappers
  import opened MacroTable
  import opened Conditionals

  class Preprocessor {
    var input: seq<Line>        // what fgets has not returned yet
    var buffered: Option<Line>  // the line skip_to pushed back
    var iftop: seq<IfState>
    var output: seq<string>
    const table: DefTable

    ghost predicate Valid()
      reads this, table, table.defns
    {
      table.Valid()
    }

    ghost function View(): State
      reads this, table
    {
      State((if buffered.Some? then [buffered.value] else []) + input, iftop, table.Macros(), output)
    }

    constructor (lines: seq<Line>)
      ensures Valid() && fresh(table) && fresh(table.defns)
      ensures View() == State(lines, [], map[], [])
    {
      input, buffered, iftop, output := lines, None, [], [];
      table := new DefTable();
      new;
      assert View().lines == lines;
    }

    /** Read until a line that ends the skip, and push that line back. */
    method SkipTo(toElse: bool) returns (ok: bool)
      requires buffered.None?
      modifies this`input, this`buffered
      ensures var rest := Conditionals.SkipTo(old(View()).lines, 0, toElse);
        if rest.Some? then ok && View() == old(View()).(lines := rest.value) else !ok
    {
      var nest := 0;
      ghost var lines := View().lines;
      assert lines == input;
      while input != []
        invariant buffered.None?
        invariant Conditionals.SkipTo(input, nest, toElse) == Conditionals.SkipTo(lines, 0, toElse)
        decreases |input|
      {
        var line := input[0];
        ghost var here := input;
        input := input[1..];
        if line.Open? {
          nest := nest + 1;
        } else if nest > 0 {
          if line.EndIf? {
            nest := nest - 1;
          }
        } else if line.EndIf? || line.Elif? || (toElse && line.Else?) {
          buffered := Some(line);
          assert View().lines == here;
          return true;
        }
      }
      return false;
    }

    method HandleCond(c: bool) returns (ok: bool)
      requires Valid() && buffered.None?
      modifies this`input, this`buffered, this`iftop
      ensures Valid()
      ensures var s := Conditionals.HandleCond(old(View()), c);
        if s.Some? then ok && View() == s.value else !ok
    {
      ok := true;
      if !c {
        ok := SkipTo(true);
        if !ok {
          return;
        }
      }
      iftop := [if c then ExpectEndIf else ExpectElse] + iftop;
    }

    method HandleElse() returns (ok: bool)
      requires Valid() && buffered.None?
      modifies this`input, this`buffered, this`iftop
      ensures Valid()
      ensures var s := Conditionals.HandleElse(old(View()));
        if s.Some? then ok && View() == s.value else !ok
    {
      if iftop == [] {
        return false;
      }
      if iftop[0] == ExpectElse {
        iftop := [ExpectEndIf] + iftop[1..];
        return true;
      }
      ok := SkipTo(false);
    }

    method HandleEndIf() returns (ok: bool)
      requires Valid() && buffered.None?
      modifies this`iftop
      ensures Valid()
      ensures var s := Conditionals.HandleEndIf(old(View()));
        if s.Some? then ok && View() == s.value else !ok
    {
      if iftop == [] {
        return false;
      }
      iftop := iftop[1..];
      return true;
    }

    method NextLine() returns (line: Line)
      requires Valid() && View().lines != []
      modifies this`input, this`buffered
      ensures Valid() && buffered.None?
      ensures line == old(View()).lines[0] && View() == old(View()).(lines := old(View()).lines[1..])
    {
      if buffered.Some? {
        line := buffered.value;
        buffered := None;
      } else {
        line := input[0];
        input := input[1..];
      }
    }

    /** One directive or text line. */
    method Process(line: Line) returns (ok: bool)
      requires Valid() && buffered.None?
      modifies this, table, table.defns
      ensures Valid()
      ensures var before := old(View());
        var s := Step(before.(lines := [line] + before.lines));
        if s.Some? then ok && View() == s.value else !ok
    {
      ok := true;
      ghost var v := View();
      assert ([line] + v.lines)[1..] == v.lines;
      match line {
        case Text(text) => output := output + [text];
        case Define(name, body) => ok := table.AddDefine(name, -1, body);
        case Undef(name) => table.Undef(name);
        case Open(kind, name) =>
          if kind == If {
            return false;
          }
          var defined := table.LookupDefine(name);
          ok := HandleCond(if kind == IfDef then defined else !defined);
        case Elif(text) => ok := false;
        case Else => ok := HandleElse();
        case EndIf => ok := HandleEndIf();
      }
    }

    /** The main loop over the file, pushed-back lines first. */
    method Preprocess() returns (ok: bool)
      requires Valid()
      modifies this, table, table.defns
      ensures Valid()
      ensures var s := Run(old(View()));
        if s.Some? then ok && View() == s.value else !ok
    {
      while buffered.Some? || input != []
        invariant Valid()
        invariant Run(View()) == Run(old(View()))
        decreases |View().lines|
      {
        ghost var s := View();
        StepConsumes(s);
        var line := NextLine();
        assert [line] + View().lines == s.lines;
        ok := Process(line);
        if !ok {
          return;
        }
      }
      if iftop != [] {
        return false;
      }
      return true;
    }
  }

  /** A well-nested file leaves exactly the live text, an empty if-stack, and chains
      that answer for every name as the live directives say. */
  method PreprocessTrees(ts: seq<Tree>) returns (ok: bool, p: Preprocessor)
    ensures p.Valid() && fresh(p) && fresh(p.table) && fresh(p.table.defns)
    ensures var r := AllMeaning(ts, map[]);
      if r.None? then !ok
      else
        && ok && p.output == r.value.out && p.iftop == [] && p.input == [] && p.buffered == None
        && forall n :: p.table.Answer(n) == if n in r.value.macros then Some(r.value.macros[n]) else None
  {
    p := new Preprocessor(AllLines(ts));
    FollowsTheTree(ts, map[]);
    ok := p.Preprocess();
    forall n ensures p.table.Answer(n) == if n in p.table.Macros() then Some(p.table.Macros()[n]) else None {
      p.table.AnswersAsMap(n);
    }
  }

  /** What a caller then finds: a name is defined exactly if the live part of the file
      leaves it so. */
  method DefinedAfter(ts: seq<Tree>, name: string) returns (ok: bool, defined: bool)
    ensures var r := AllMeaning(ts, map[]);
      if r.None? then !ok else ok && (defined <==> name in r.value.macros)
  {
    var p;
    ok, p := PreprocessTrees(ts);
    if !ok {
      return false, false;
    }
    defined := p.table.LookupDefine(name);
    p.table.AnswersAsMap(name);
  }

  /** A definition at the end of a file that is no error otherwise: the chains answer
      with the body between the blanks, or it is an error. */
  method DefinedLast(ts: seq<Tree>, name: string, a: string, s: string, b: string) returns (ok: bool, p: Preprocessor)
    requires IsBlank(a) && IsBlank(b) && IsBody(s)
    requires AllMeaning(ts, map[]).Some?
    ensures p.Valid() && fresh(p) && fresh(p.table) && fresh(p.table.defns)
    ensures ok <==> !PastesAtEnd(s) && !(name in AllMeaning(ts, map[]).value.macros && AllMeaning(ts, map[]).value.macros[name].predef)
    ensures ok ==> p.table.Answer(name) == Some(Macro(-1, s, false))
    ensures ok ==> forall n :: n != name ==>
      p.table.Answer(n) == (var m := AllMeaning(ts, map[]).value.macros; if n in m then Some(m[n]) else None)
  {
    MeaningOfDefinition(ts, map[], name, a, s, b);
    ok, p := PreprocessTrees(ts + [Def(name, a + s + b)]);
  }
}
