/**
 Two loops that remove "." and ".." from the components of a path, both measured
 against reducing the components with a stack.
 */
module Paths {
  import opened Wrappers

  /** One component on a stack; ".." takes one off, and nothing at the root. */
  function Push(stack: seq<string>, c: string): seq<string>
  {
    if c == "." then stack
    else if c == ".." then (if stack == [] then [] else stack[..|stack| - 1])
    else stack + [c]
  }

  /** The stack reduction of a path's components. */
  function Reduce(cs: seq<string>): seq<string>
  {
    if cs == [] then [] else Push(Reduce(cs[..|cs| - 1]), cs[|cs| - 1])
  }

  lemma ReduceNext(cs: seq<string>, i: nat)
    requires i < |cs|
    ensures Reduce(cs[..i + 1]) == Push(Reduce(cs[..i]), cs[i])
  {
    assert cs[..i + 1][..i] == cs[..i];
  }

  predicate NoDots(cs: seq<string>) { forall i :: 0 <= i < |cs| ==> cs[i] != "." && cs[i] != ".." }

  lemma {:induction false} ReducedHasNoDots(cs: seq<string>)
    ensures NoDots(Reduce(cs))
  {
    if cs != [] { ReducedHasNoDots(cs[..|cs| - 1]); }
  }

  lemma {:induction false} ReduceKeeps(cs: seq<string>)
    requires NoDots(cs)
    ensures Reduce(cs) == cs
  {
    if cs != [] {
      ReduceKeeps(cs[..|cs| - 1]);
      assert cs == cs[..|cs| - 1] + [cs[|cs| - 1]];
    }
  }

  lemma ReduceIdempotent(cs: seq<string>)
    ensures Reduce(Reduce(cs)) == Reduce(cs)
  {
    ReducedHasNoDots(cs);
    ReduceKeeps(Reduce(cs));
  }

  /** Reduction can be resumed: what is reduced already need not be kept apart. */
  lemma {:induction false} ReduceResumes(a: seq<string>, b: seq<string>)
    ensures Reduce(a + b) == Reduce(Reduce(a) + b)
    decreases |b|
  {
    if b == [] {
      assert a + b == a && Reduce(a) + b == Reduce(a);
      ReduceIdempotent(a);
    } else {
      var n := |b| - 1;
      ReduceResumes(a, b[..n]);
      assert (a + b)[..|a| + n] == a + b[..n];
      assert (Reduce(a) + b)[..|Reduce(a) + b| - 1] == Reduce(a) + b[..n];
    }
  }

  // -------------------------------------------------------------- resolve_path

  /** The entries that are not zero, as implode() takes them. */
  function Kept(s: seq<Option<string>>): seq<string>
  {
    if s == [] then []
    else Kept(s[..|s| - 1]) + (if s[|s| - 1].Some? then [s[|s| - 1].value] else [])
  }

  lemma {:induction false} KeptZeros(s: seq<Option<string>>, j: nat)
    requires j <= |s| && forall k :: j <= k < |s| ==> s[k].None?
    ensures Kept(s) == Kept(s[..j])
    decreases |s|
  {
    if j == |s| {
      assert s[..j] == s;
    } else {
      KeptZeros(s[..|s| - 1], j);
      assert s[..|s| - 1][..j] == s[..j];
    }
  }

  lemma KeptNext(s: seq<Option<string>>, i: nat)
    requires i < |s|
    ensures Kept(s[..i + 1]) == Kept(s[..i]) + (if s[i].Some? then [s[i].value] else [])
  {
    assert s[..i + 1][..i] == s[..i];
  }

  /** Clearing the last entry that is set takes the last kept component off. */
  lemma KeptCleared(s: seq<Option<string>>, j: nat)
    requires j < |s| && s[j].Some? && forall k :: j < k < |s| ==> s[k].None?
    ensures Kept(s) != [] && Kept(s[j := None]) == Kept(s)[..|Kept(s)| - 1]
  {
    KeptZeros(s, j + 1);
    KeptZeros(s[j := None], j);
    assert s[..j + 1][..j] == s[..j] && s[j := None][..j] == s[..j];
  }

  lemma KeptNothing(s: seq<Option<string>>)
    requires forall k :: 0 <= k < |s| ==> s[k].None?
    ensures Kept(s) == []
  {
    KeptZeros(s, 0);
  }

  function All(cs: seq<string>): (s: seq<Option<string>>)
    ensures |s| == |cs| && forall k :: 0 <= k < |cs| ==> s[k] == Some(cs[k])
  {
    seq(|cs|, k requires 0 <= k < |cs| => Some(cs[k]))
  }

  /** The inner loop for "..": clear the last entry still set below j, if any, and
      return the new bound. */
  method ClearBelow(tmp: array<Option<string>>, j0: nat, ghost i: nat) returns (j: nat)
    requires j0 <= i <= tmp.Length && forall k :: j0 <= k < i ==> tmp[k].None?
    modifies tmp
    ensures j <= j0 && forall k :: j <= k < i ==> tmp[k].None?
    ensures forall k :: 0 <= k < tmp.Length && k != j ==> tmp[k] == old(tmp[k])
    ensures forall k :: i <= k < tmp.Length ==> tmp[k] == old(tmp[k])
    ensures var before := Kept(old(tmp[..i]));
      Kept(tmp[..i]) == if before == [] then [] else before[..|before| - 1]
  {
    ghost var s := tmp[..i];
    var p: int := j0;
    if j0 > 0 {
      p := p - 1;
      while p >= 0 && tmp[p].None?
        invariant -1 <= p < j0
        invariant forall k :: p < k < i ==> s[k].None?
      {
        p := p - 1;
      }
      if p >= 0 {
        KeptCleared(s, p);
        tmp[p] := None;
        assert tmp[..i] == s[p := None];
        return p;
      }
      p := p + 1;
    }
    KeptNothing(s);
    return p;
  }

  method ResolveComponents(tmp: array<Option<string>>, ghost cs: seq<string>)
    requires tmp[..] == All(cs)
    modifies tmp
    ensures Kept(tmp[..]) == Reduce(cs)
    ensures forall k :: 0 <= k < |cs| ==> tmp[k] == None || tmp[k] == Some(cs[k])
  {
    hide Kept, Reduce;
    NothingYet(tmp[..0], cs[..0]);
    var i, j := 0, 0;
    while i < tmp.Length
      invariant 0 <= j <= i <= tmp.Length == |cs|
      invariant forall k :: j <= k < i ==> tmp[k].None?
      invariant forall k :: i <= k < |cs| ==> tmp[k] == Some(cs[k])
      invariant forall k :: 0 <= k < i ==> tmp[k] == None || tmp[k] == Some(cs[k])
      invariant Kept(tmp[..i]) == Reduce(cs[..i])
    {
      ReduceNext(cs, i);
      if tmp[i] == Some("..") {
        j := ClearBelow(tmp, j, i);
        ClearEntry(tmp, i);
        i := i + 1;
      } else if tmp[i] == Some(".") {
        ClearEntry(tmp, i);
        i := i + 1;
      } else {
        KeptNext(tmp[..], i);
        assert tmp[..][..i + 1] == tmp[..i + 1] && tmp[..][..i] == tmp[..i];
        i := i + 1;
        j := i;
      }
    }
    assert tmp[..i] == tmp[..] && cs[..i] == cs;
  }

  lemma NothingYet(s: seq<Option<string>>, cs: seq<string>)
    requires s == [] && cs == []
    ensures Kept(s) == Reduce(cs)
  {
  }

  method ClearEntry(tmp: array<Option<string>>, i: nat)
    requires i < tmp.Length
    modifies tmp
    ensures tmp[i] == None && forall k :: 0 <= k < tmp.Length && k != i ==> tmp[k] == old(tmp[k])
    ensures Kept(tmp[..i + 1]) == Kept(old(tmp[..i]))
  {
    tmp[i] := None;
    assert tmp[..i] == old(tmp[..i]);
    KeptNext(tmp[..], i);
    assert tmp[..][..i + 1] == tmp[..i + 1] && tmp[..][..i] == tmp[..i];
  }

  // ------------------------------------------------------------------ get_path

  /** The components without the empty ones and the single dots. */
  function Cleaned(cs: seq<string>): seq<string>
  {
    if cs == [] then []
    else Cleaned(cs[..|cs| - 1]) + (if cs[|cs| - 1] == "" || cs[|cs| - 1] == "." then [] else [cs[|cs| - 1]])
  }

  lemma {:induction false} CleanedReducesAlike(cs: seq<string>)
    requires "" !in cs
    ensures Reduce(Cleaned(cs)) == Reduce(cs)
    ensures ClimbsOut(Cleaned(cs)) <==> ClimbsOut(cs)
    ensures "." !in Cleaned(cs)
  {
    hide Reduce, ClimbsOut;
    if cs != [] {
      var n := |cs| - 1;
      var front := Cleaned(cs[..n]);
      CleanedReducesAlike(cs[..n]);
      ReduceSnoc(front, cs[n]);
      ReduceSnoc(cs[..n], cs[n]);
      ClimbsSnoc(front, cs[n]);
      ClimbsSnoc(cs[..n], cs[n]);
      assert cs == cs[..n] + [cs[n]];
      assert cs[n] in cs && front + [] == front;
    }
  }

  lemma ClimbsSnoc(front: seq<string>, c: string)
    ensures ClimbsOut(front + [c]) <==> ClimbsOut(front) || (c == ".." && Reduce(front) == [])
  {
    hide Reduce, ClimbsOut;
    var cs := front + [c];
    ClimbsNext(cs, |front|);
    assert cs[..|front|] == front && cs[..|front| + 1] == cs;
  }

  lemma ReduceSnoc(front: seq<string>, c: string)
    ensures Reduce(front + [c]) == Push(Reduce(front), c)
  {
    assert (front + [c])[..|front|] == front;
  }

  /** Some ".." is met while nothing is left to take off. */
  predicate ClimbsOut(cs: seq<string>)
  {
    exists i :: 0 <= i < |cs| && cs[i] == ".." && Reduce(cs[..i]) == []
  }

  /** The loop over the list that is sliced and shrunk while it is walked; None
      stands for the root, which a ".." at the root yields at once. */
  method GetPath(cs: seq<string>) returns (r: Option<seq<string>>)
    requires "." !in cs
    ensures r == if ClimbsOut(cs) then None else Some(Reduce(cs))
  {
    hide Reduce;
    ReduceNothing(cs[..0]);
    var dirlist, i, s := cs, 0, |cs|;
    ghost var done, front := 0, [];
    while i < s
      invariant 0 <= done <= |cs| && i == |front| && s == |dirlist|
      invariant front == Reduce(cs[..done])
      invariant dirlist == front + cs[done..]
      invariant !ClimbsOut(cs[..done])
      decreases |cs| - done
    {
      ReduceNext(cs, done);
      ClimbsNext(cs, done);
      assert dirlist[i] == cs[done] && cs[done] in cs;
      if dirlist[i] == ".." {
        if i < 1 {
          ClimbsAlready(cs, done + 1);
          return None;
        }
        CutIs(front, cs[done..]);
        dirlist := CutParent(dirlist, i);
        s := s - 2;
        i := i - 2;
      }
      done := done + 1;
      front := Reduce(cs[..done]);
      i := i + 1;
    }
    assert |dirlist| == |front| + |cs[done..]|;
    assert cs[..done] == cs && dirlist == front;
    return Some(dirlist);
  }

  lemma ClimbsNext(cs: seq<string>, i: nat)
    requires i < |cs|
    ensures ClimbsOut(cs[..i + 1]) <==> ClimbsOut(cs[..i]) || (cs[i] == ".." && Reduce(cs[..i]) == [])
  {
    hide Reduce;
    if ClimbsOut(cs[..i + 1]) {
      var j :| 0 <= j < i + 1 && cs[..i + 1][j] == ".." && Reduce(cs[..i + 1][..j]) == [];
      assert cs[..i + 1][..j] == cs[..j];
      if j < i { assert cs[..i][j] == ".." && cs[..i][..j] == cs[..j]; }
    }
    if ClimbsOut(cs[..i]) {
      var j :| 0 <= j < i && cs[..i][j] == ".." && Reduce(cs[..i][..j]) == [];
      assert cs[..i + 1][j] == ".." && cs[..i + 1][..j] == cs[..i][..j];
    }
    if cs[i] == ".." && Reduce(cs[..i]) == [] {
      assert cs[..i + 1][i] == ".." && cs[..i + 1][..i] == cs[..i];
    }
  }

  lemma ClimbsAlready(cs: seq<string>, i: nat)
    requires i <= |cs| && ClimbsOut(cs[..i])
    ensures ClimbsOut(cs)
  {
    hide Reduce;
    var j :| 0 <= j < i && cs[..i][j] == ".." && Reduce(cs[..i][..j]) == [];
    assert cs[..i][..j] == cs[..j];
  }

  lemma CutIs(front: seq<string>, rest: seq<string>)
    requires front != [] && rest != []
    ensures var i := |front|;
      (front + rest)[..i - 1] + (front + rest)[i + 1..] == front[..i - 1] + rest[1..]
  {
  }

  lemma ReduceNothing(cs: seq<string>)
    requires cs == []
    ensures Reduce(cs) == []
  {
  }

  /** The list without the ".." at i and the component before it. */
  method CutParent(dirlist: seq<string>, i: nat) returns (dirlist1: seq<string>)
    requires 1 <= i < |dirlist|
    ensures dirlist1 == dirlist[..i - 1] + dirlist[i + 1..]
  {
    dirlist1 := if i == 1 then [] else dirlist[0..i - 1];
    var s := |dirlist| - 2;
    if i <= s {
      dirlist1 := dirlist1 + dirlist[i + 1..|dirlist|];
    }
  }

  /** Both normalisers on the same components: they agree, unless some ".." climbs
      out, where resolve_path ignores it and get_path answers the root. */
  method NormaliseBoth(tmp: array<Option<string>>, cs: seq<string>) returns (r: Option<seq<string>>)
    requires tmp[..] == All(cs) && "" !in cs
    modifies tmp
    ensures r == if ClimbsOut(cs) then None else Some(Kept(tmp[..]))
  {
    hide Kept, Reduce, ClimbsOut;
    CleanedReducesAlike(cs);
    ResolveComponents(tmp, cs);
    r := GetPath(Cleaned(cs));
  }

  // ------------------------------------------------------ the reduction, by laws

  predicate IsName(c: string) { c != "." && c != ".." }

  /** Names stay, "." goes, ".." goes with the name before it, or alone at the root. */
  lemma ReductionLaws(a: seq<string>, c: string, b: seq<string>)
    requires IsName(c)
    ensures Reduce(a + [c, ".."] + b) == Reduce(a + b)
    ensures Reduce(a + ["."] + b) == Reduce(a + b)
    ensures Reduce([".."] + b) == Reduce(b)
    ensures (forall i :: 0 <= i < |a| ==> IsName(a[i])) ==> Reduce(a) == a
  {
    hide Reduce;
    ReduceResumes(a + [c, ".."], b);
    ReduceResumes(a + ["."], b);
    ReduceResumes([".."], b);
    ReduceResumes(a, b);
    assert a + [c, ".."] == a + [c] + [".."];
    ReduceSnoc(a + [c], "..");
    ReduceSnoc(a, c);
    ReduceSnoc(a, ".");
    ReduceSnoc([], "..");
    ReduceNothing([]);
    assert [] + [".."] == [".."] && [] + b == b;
    if forall i :: 0 <= i < |a| ==> IsName(a[i]) { ReduceKeeps(a); }
  }
}
