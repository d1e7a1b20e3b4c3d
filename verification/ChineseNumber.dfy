/**
 The numeral printer of the Chinese daemon, and a reader that gets every number back.
 Numbers are grouped by 万 (ten thousand), 亿 (a hundred million) and 兆 (a million
 million), with 零 before some short remainders.
 */
module ChineseNumber {
  import opened Wrappers

  const NUMERALS: string := "零一二三四五六七八九十"
  const UNITS: string := "零十百千万亿兆"
  const MINUS: char := '负'
  const ZERO: char := '零'

  /** The number as text. */
  function Chinese(i: int): string
    decreases i < 0, if i < 0 then -i else i
  {
    if i < 0 then [MINUS] + Chinese(-i)
    else if i < 11 then [NUMERALS[i]]
    else if i < 20 then [UNITS[1], NUMERALS[i - 10]]
    else if i < 100 then
      if i % 10 != 0 then [NUMERALS[i / 10], UNITS[1], NUMERALS[i % 10]] else [NUMERALS[i / 10], UNITS[1]]
    else if i < 1000 then
      if i % 100 == 0 then [NUMERALS[i / 100], UNITS[2]]
      else if i % 100 < 10 then [NUMERALS[i / 100], UNITS[2], NUMERALS[0]] + Chinese(i % 100)
      else [NUMERALS[i / 100], UNITS[2]] + Chinese(i % 100)
    else if i < 10000 then
      if i % 1000 == 0 then [NUMERALS[i / 1000], UNITS[3]]
      else if i % 1000 < 100 then [NUMERALS[i / 1000], UNITS[3], NUMERALS[0]] + Chinese(i % 1000)
      else [NUMERALS[i / 1000], UNITS[3]] + Chinese(i % 1000)
    else if i < 1_0000_0000 then
      if i % 10000 == 0 then Chinese(i / 10000) + [UNITS[4]]
      else if i % 10000 < 1000 then Chinese(i / 10000) + [UNITS[4], NUMERALS[0]] + Chinese(i % 10000)
      else Chinese(i / 10000) + [UNITS[4]] + Chinese(i % 10000)
    else if i < 1_0000_0000_0000 then
      if i % 1_0000_0000 == 0 then Chinese(i / 1_0000_0000) + [UNITS[5]]
      else if i % 1_0000_0000 < 100_0000 then
        Chinese(i / 1_0000_0000) + [UNITS[5], NUMERALS[0]] + Chinese(i % 1_0000_0000)
      else Chinese(i / 1_0000_0000) + [UNITS[5]] + Chinese(i % 1_0000_0000)
    else if i % 1_0000_0000_0000 == 0 then Chinese(i / 1_0000_0000_0000) + [UNITS[6]]
    else if i % 1_0000_0000_0000 < 1_0000_0000 then
      Chinese(i / 1_0000_0000_0000) + [UNITS[6], NUMERALS[0]] + Chinese(i % 1_0000_0000_0000)
    else Chinese(i / 1_0000_0000_0000) + [UNITS[6]] + Chinese(i % 1_0000_0000_0000)
  }

  // ---------------------------------------------------------------- reading back

  /** What the k-th unit stands for. */
  function Worth(k: nat): nat
    requires 1 <= k <= 6
  {
    if k == 1 then 10 else if k == 2 then 100 else if k == 3 then 1000
    else if k == 4 then 10000 else if k == 5 then 1_0000_0000 else 1_0000_0000_0000
  }

  /** The position of the last c, or -1. */
  function Last(s: string, c: char): (p: int)
    ensures -1 <= p < |s|
    ensures p >= 0 ==> s[p] == c
    ensures forall i :: p < i < |s| ==> s[i] != c
  {
    if s == "" then -1
    else if s[|s| - 1] == c then |s| - 1
    else Last(s[..|s| - 1], c)
  }

  function Digit(c: char): int
  {
    var p := Last(NUMERALS[..10], c);
    if p < 0 then 0 else p
  }

  /** Read a text whose units are at most the k-th: split it at the last of its
      largest unit. */
  function Read(s: string, k: nat): int
    requires k <= 6
    decreases |s|, k
  {
    if s == "" then 0
    else if s[0] == ZERO then Read(s[1..], k)
    else if k == 0 then Digit(s[0])
    else
      var p := Last(s, UNITS[k]);
      if p < 0 then Read(s, k - 1)
      else (if p == 0 then 1 else Read(s[..p], if k == 6 then 6 else k - 1)) * Worth(k) + Read(s[p + 1..], k - 1)
  }

  function ReadNumber(s: string): int
  {
    if s != "" && s[0] == MINUS then -Read(s[1..], 6) else Read(s, 6)
  }

  /** The rank of a character: 0 for a numeral, the number of a unit, 7 for others. */
  function Rank(c: char): nat
  {
    if c in NUMERALS[..10] then 0
    else var p := Last(UNITS, c); if p < 0 then 7 else p
  }

  ghost predicate Below(s: string, k: nat) { forall i :: 0 <= i < |s| ==> Rank(s[i]) <= k }

  /** The least number that needs more than the k-th unit; nothing does after the last. */
  ghost predicate Small(i: nat, k: nat)
    requires k <= 6
  {
    k == 6 || i < if k == 0 then 10 else Worth(k + 1)
  }

  lemma Ranks()
    ensures forall k :: 0 <= k < 10 ==> Rank(NUMERALS[k]) == 0 && Digit(NUMERALS[k]) == k
    ensures forall k :: 1 <= k <= 6 ==> Rank(UNITS[k]) == k
    ensures NUMERALS[10] == UNITS[1] && NUMERALS[0] == ZERO && Rank(MINUS) == 7
    ensures forall k :: 1 <= k < 10 ==> NUMERALS[k] != ZERO
  {
  }

  // ------------------------------------------------------------------ the reader

  /** The rank of what may stand before the k-th unit: 兆 may stand before 兆. */
  function HeadRank(k: nat): nat
    requires 1 <= k <= 6
  {
    if k == 6 then 6 else k - 1
  }

  lemma SplitReads(h: string, k: nat, t: string)
    requires 1 <= k <= 6 && Below(h, HeadRank(k)) && Below(t, k - 1)
    requires h == "" || h[0] != ZERO
    ensures var s := h + [UNITS[k]] + t;
      && Below(s, k) && s[0] != ZERO
      && Read(s, k) == (if h == "" then 1 else Read(h, HeadRank(k))) * Worth(k) + Read(t, k - 1)
  {
    Ranks();
    hide Rank;
    var s := h + [UNITS[k]] + t;
    assert s[0] != ZERO by { assert Rank(UNITS[k]) != Rank(ZERO); }
    var p := Last(s, UNITS[k]);
    assert s[|h|] == UNITS[k];
    forall i | |h| < i < |s| ensures s[i] != UNITS[k] { assert s[i] == t[i - |h| - 1]; }
    assert s[..p] == h && s[p + 1..] == t;
  }

  /** A larger unit that does not occur changes nothing. */
  lemma {:induction false} Lift(s: string, k: nat)
    requires 1 <= k <= 6 && Below(s, k - 1)
    ensures Read(s, k) == Read(s, k - 1)
    decreases |s|
  {
    Ranks();
    hide Rank;
    if s != "" && s[0] == ZERO {
      assert forall i :: 0 <= i < |s| - 1 ==> s[1..][i] == s[i + 1];
      Lift(s[1..], k);
    }
  }

  ghost predicate Reads(i: nat, k: nat)
    requires k <= 6
  {
    var s := Chinese(i);
    s != "" && (s[0] == ZERO <==> i == 0) && Below(s, k) && Read(s, k) == i
  }

  /** Remainders below this one get a 零. */
  function ZeroBelow(k: nat): nat
  {
    if k <= 1 then 0 else if k == 2 then 10 else if k == 3 then 100
    else if k == 4 then 1000 else if k == 5 then 100_0000 else 1_0000_0000
  }

  function Tail(r: nat, k: nat): string
  {
    if r == 0 then "" else if r < ZeroBelow(k) then [ZERO] + Chinese(r) else Chinese(r)
  }

  function Head(q: nat, k: nat): string
  {
    if k == 1 && q == 1 then "" else Chinese(q)
  }

  /** Every branch of the printer has the same shape. */
  lemma Shape(i: nat, k: nat)
    requires 1 <= k <= 6 && Worth(k) <= i && Small(i, k)
    ensures Chinese(i) == Head(i / Worth(k), k) + [UNITS[k]] + Tail(i % Worth(k), k)
  {
    if k <= 3 { LowShape(i, k); } else { HighShape(i, k); }
  }

  lemma {:induction false} LowShape(i: nat, k: nat)
    requires 1 <= k <= 3 && Worth(k) <= i < Worth(k + 1)
    ensures Chinese(i) == Head(i / Worth(k), k) + [UNITS[k]] + Tail(i % Worth(k), k)
  {
    if k == 1 { TensShape(i); } else if k == 2 { HundredsShape(i); } else { ThousandsShape(i); }
  }

  lemma {:induction false} TensShape(i: nat)
    requires 10 <= i < 100
    ensures Chinese(i) == Head(i / 10, 1) + [UNITS[1]] + Tail(i % 10, 1)
  {
    assert Chinese(i / 10) == [NUMERALS[i / 10]];
  }

  lemma {:induction false} HundredsShape(i: nat)
    requires 100 <= i < 1000
    ensures Chinese(i) == Head(i / 100, 2) + [UNITS[2]] + Tail(i % 100, 2)
  {
    assert Chinese(i / 100) == [NUMERALS[i / 100]];
  }

  lemma {:induction false} ThousandsShape(i: nat)
    requires 1000 <= i < 10000
    ensures Chinese(i) == Head(i / 1000, 3) + [UNITS[3]] + Tail(i % 1000, 3)
  {
    assert Chinese(i / 1000) == [NUMERALS[i / 1000]];
  }

  lemma {:induction false} HighShape(i: nat, k: nat)
    requires 4 <= k <= 6 && Worth(k) <= i && Small(i, k)
    ensures Chinese(i) == Head(i / Worth(k), k) + [UNITS[k]] + Tail(i % Worth(k), k)
  {
    var c, d := Chinese(i / Worth(k)), Chinese(i % Worth(k));
    assert [UNITS[k], NUMERALS[0]] == [UNITS[k]] + [ZERO];
    assert c + [UNITS[k], NUMERALS[0]] + d == c + [UNITS[k]] + ([ZERO] + d);
    assert c + [UNITS[k]] + "" == c + [UNITS[k]];
  }

  /** The units the two parts may hold. */
  lemma Parts(i: nat, k: nat) returns (q: nat, r: nat)
    requires 1 <= k <= 6 && Worth(k) <= i && Small(i, k)
    ensures q == i / Worth(k) && r == i % Worth(k) && i == q * Worth(k) + r
    ensures 1 <= q < i && r < Worth(k) <= i && Small(q, HeadRank(k)) && Small(r, k - 1)
  {
    q, r := i / Worth(k), i % Worth(k);
  }

  /** The reader finds every number the printer wrote. */
  lemma {:induction false} NumberReads(i: nat, k: nat)
    requires k <= 6 && Small(i, k)
    ensures Reads(i, k)
    decreases i, k
  {
    if k == 0 {
      Ranks();
    } else if Small(i, k - 1) {
      NumberReads(i, k - 1);
      Lift(Chinese(i), k);
    } else {
      var q, r := Parts(i, k);
      Shape(i, k);
      NumberReads(q, HeadRank(k));
      NumberReads(r, k - 1);
      Joined(i, q, r, k);
    }
  }

  lemma Joined(i: nat, q: nat, r: nat, k: nat)
    requires 1 <= k <= 6 && i > 0 && q > 0 && i == q * Worth(k) + r
    requires Reads(q, HeadRank(k)) && Reads(r, k - 1)
    requires Chinese(i) == Head(q, k) + [UNITS[k]] + Tail(r, k)
    ensures Reads(i, k)
  {
    TailReads(r, k);
    hide Chinese, Tail, Read;
    SplitReads(Head(q, k), k, Tail(r, k));
  }

  lemma TailReads(r: nat, k: nat)
    requires 1 <= k <= 6 && Reads(r, k - 1)
    ensures Below(Tail(r, k), k - 1) && Read(Tail(r, k), k - 1) == r
  {
    hide Chinese;
    Ranks();
    hide Rank;
    var d := Chinese(r);
    var t := [ZERO] + d;
    assert t[1..] == d;
    assert forall i :: 0 < i < |t| ==> t[i] == d[i - 1];
  }

  /** The reader is the printer's inverse, on every integer. */
  lemma ReadsBack(i: int)
    ensures ReadNumber(Chinese(i)) == i
  {
    Ranks();
    hide Rank, Read;
    if i >= 0 {
      NumberReads(i, 6);
    } else {
      NumberReads(-i, 6);
      assert Chinese(i)[1..] == Chinese(-i);
    }
  }

  /** No two numbers print alike. */
  lemma Injective(i: int, j: int)
    requires Chinese(i) == Chinese(j)
    ensures i == j
  {
    ReadsBack(i);
    ReadsBack(j);
  }

  // ------------------------------------------------------------- 64-bit numbers

  const LEAST: int := -0x8000_0000_0000_0000

  function Negated(i: int): int { if i == LEAST then LEAST else -i }

  /** The printer on the driver's 64-bit numbers, at most depth negations deep; None
      stands for a recursion that has not ended. */
  function Deep(i: int, depth: nat): Option<string>
    decreases depth
  {
    if i >= 0 then Some(Chinese(i))
    else if depth == 0 then None
    else var s := Deep(Negated(i), depth - 1); if s.None? then None else Some([MINUS] + s.value)
  }

  /** The recursion ends on every number but the least, which is its own negation. */
  lemma {:induction false} EndsUnlessLeast(i: int, depth: nat)
    requires LEAST <= i < -LEAST && depth > 0
    ensures Deep(i, depth) == if i == LEAST then None else Some(Chinese(i))
  {
    if i == LEAST && depth > 1 {
      EndsUnlessLeast(i, depth - 1);
    } else if i != LEAST && i < 0 {
      assert Deep(-i, depth - 1) == Some(Chinese(-i));
    }
  }

  /** Some numbers, with every unit among them. */
  lemma Numerals()
    ensures Chinese(0) == "零" && Chinese(10) == "十" && Chinese(11) == "十一" && Chinese(20) == "二十" && Chinese(-3) == "负三"
    ensures Chinese(45) == "四十五" && Chinese(106) == "一百零六" && Chinese(117) == "一百十七" && Chinese(8009) == "八千零九"
    ensures Chinese(10000) == "一万" && Chinese(100020) == "十万零二十" && Chinese(1_0000_0000) == "一亿"
    ensures Chinese(1_0000_0000_0000) == "一兆"
  {
  }
}
