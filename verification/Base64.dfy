/**
 Base64 as the object-file converter writes and reads it: four six-bit groups for
 three octets, collected in small arrays, cut and joined with masks and shifts.
 */
module Base64 {
  type octet = bv8

  // --------------------------------------------------------------- the alphabet

  /** The characters are octets too: 65 is A, 97 is a, 48 is 0. */
  const PLUS: octet := 43
  const SLASH: octet := 47
  const PAD: octet := 61

  predicate IsBase64(c: octet)
  {
    65 <= c <= 90 || 97 <= c <= 122 || 48 <= c <= 57 || c == PLUS || c == SLASH
  }

  /** The character at a position of the alphabet. */
  function CharOf(v: octet): octet
    requires v < 64
  {
    if v < 26 then 65 + v
    else if v < 52 then 97 + (v - 26)
    else if v < 62 then 48 + (v - 52)
    else if v == 62 then PLUS else SLASH
  }

  /** The position of a character, cut to an octet: 255 when it is not in the alphabet. */
  function Find(c: octet): octet
  {
    if 65 <= c <= 90 then c - 65
    else if 97 <= c <= 122 then c - 97 + 26
    else if 48 <= c <= 57 then c - 48 + 52
    else if c == PLUS then 62
    else if c == SLASH then 63
    else 255
  }

  lemma FindChar(v: octet)
    requires v < 64
    ensures Find(CharOf(v)) == v && IsBase64(CharOf(v))
  {
  }

  // ------------------------------------------------------------------ the groups

  function Sextet0(a: octet): octet { (a & 0xfc) >> 2 }
  function Sextet1(a: octet, b: octet): octet { ((a & 0x03) << 4) + ((b & 0xf0) >> 4) }
  function Sextet2(b: octet, c: octet): octet { ((b & 0x0f) << 2) + ((c & 0xc0) >> 6) }
  function Sextet3(c: octet): octet { c & 0x3f }

  /** The four six-bit values of three octets. */
  function Sextets(a: octet, b: octet, c: octet): (s: seq<octet>)
    ensures |s| == 4 && forall i :: 0 <= i < 4 ==> s[i] < 64
  {
    [Sextet0(a), Sextet1(a, b), Sextet2(b, c), Sextet3(c)]
  }

  /** The three octets of four values; the filler 255 may be among the last two. */
  function Octets(s: seq<octet>): (o: seq<octet>)
    requires |s| == 4
    ensures |o| == 3
  {
    [(s[0] << 2) + ((s[1] & 0x30) >> 4), ((s[1] & 0xf) << 4) + ((s[2] & 0x3c) >> 2), ((s[2] & 0x3) << 6) + s[3]]
  }

  /** Both readings of a group are the same 24 bits, as section 4 of RFC 4648 has it:
      three octets from the left, and four six-bit values from the left. */
  lemma SameBits(a: octet, b: octet, c: octet)
    ensures var s := Sextets(a, b, c);
      (s[0] as bv24 << 18) | (s[1] as bv24 << 12) | (s[2] as bv24 << 6) | s[3] as bv24
      == (a as bv24 << 16) | (b as bv24 << 8) | c as bv24
  {
  }

  lemma OctetsOfSextets(a: octet, b: octet, c: octet)
    ensures Octets(Sextets(a, b, c)) == [a, b, c]
  {
  }

  /** The first octet does not depend on the last two values, nor the second on the
      last: fillers there do not matter. */
  lemma FillersDoNotMatter(s: seq<octet>, x: octet, y: octet)
    requires |s| == 4
    ensures Octets([s[0], s[1], x, y])[0] == Octets(s)[0]
    ensures Octets([s[0], s[1], s[2], y])[..2] == Octets(s)[..2]
  {
  }

  // ------------------------------------------------------------- whole sequences

  function Chars(s: seq<octet>): (r: seq<octet>)
    requires forall i :: 0 <= i < |s| ==> s[i] < 64
    ensures |r| == |s|
    ensures forall i :: 0 <= i < |s| ==> r[i] == CharOf(s[i])
  {
    if s == [] then [] else [CharOf(s[0])] + Chars(s[1..])
  }

  function Encode(b: seq<octet>): seq<octet>
  {
    if b == [] then []
    else if |b| == 1 then Chars(Sextets(b[0], 0, 0)[..2]) + [PAD, PAD]
    else if |b| == 2 then Chars(Sextets(b[0], b[1], 0)[..3]) + [PAD]
    else Chars(Sextets(b[0], b[1], b[2])) + Encode(b[3..])
  }

  function Values(s: seq<octet>): (v: seq<octet>)
    ensures |v| == |s| && forall i :: 0 <= i < |s| ==> v[i] == Find(s[i])
  {
    seq(|s|, i requires 0 <= i < |s| => Find(s[i]))
  }

  /** Reading stops at PAD and at any other character outside the alphabet. */
  predicate Starts(s: seq<octet>, n: nat) { n <= |s| && forall i :: 0 <= i < n ==> IsBase64(s[i]) }

  function Decode(s: seq<octet>): seq<octet>
  {
    if Starts(s, 4) then Octets(Values(s[..4])) + Decode(s[4..])
    else if Starts(s, 3) then Octets(Values(s[..3]) + [255])[..2]
    else if Starts(s, 2) then Octets(Values(s[..2]) + [255, 255])[..1]
    else []
  }

  /** Every octet sequence comes back; of a short final group the fillers do not
      reach the output. */
  lemma {:induction false} RoundTrip(b: seq<octet>)
    ensures Decode(Encode(b)) == b
  {
    if b != [] {
      var s := Sextets(b[0], if |b| > 1 then b[1] else 0, if |b| > 2 then b[2] else 0);
      CharsRead(s);
      hide Octets, Sextets, Chars, Values, Starts;
      OctetsOfSextets(b[0], if |b| > 1 then b[1] else 0, if |b| > 2 then b[2] else 0);
      FillersDoNotMatter(s, 255, 255);
      if |b| == 1 {
        ReadsShort(s, 2, [PAD, PAD]);
      } else if |b| == 2 {
        ReadsShort(s, 3, [PAD]);
      } else {
        StartsChars(s, Encode(b[3..]));
        RoundTrip(b[3..]);
        assert b == [b[0], b[1], b[2]] + b[3..];
      }
    }
  }

  /** A final group of n characters and its padding. */
  lemma ReadsShort(s: seq<octet>, n: nat, padding: seq<octet>)
    requires |s| == 4 && (forall i :: 0 <= i < 4 ==> s[i] < 64) && 2 <= n <= 3 && padding != [] && padding[0] == PAD
    ensures var f := [s[0], s[1], if n > 2 then s[2] else 255, 255];
      Decode(Chars(s[..n]) + padding) == Octets(f)[..n - 1]
  {
    hide Octets, Chars, Values;
    CharsRead(s[..n]);
    StartsChars(s[..n], padding);
    var t := Chars(s[..n]) + padding;
    assert !Starts(t, 4);
    if n == 2 {
      assert s[..2] + [255, 255] == [s[0], s[1], 255, 255];
    } else {
      assert s[..3] + [255] == [s[0], s[1], s[2], 255];
    }
  }

  lemma CharsRead(s: seq<octet>)
    requires forall i :: 0 <= i < |s| ==> s[i] < 64
    ensures Values(Chars(s)) == s
  {
    forall i | 0 <= i < |s| ensures Values(Chars(s))[i] == s[i] { FindChar(s[i]); }
  }

  lemma StartsChars(s: seq<octet>, rest: seq<octet>)
    requires forall i :: 0 <= i < |s| ==> s[i] < 64
    ensures Starts(Chars(s) + rest, |s|)
    ensures rest != [] && !IsBase64(rest[0]) ==> !Starts(Chars(s) + rest, |s| + 1)
    ensures (Chars(s) + rest)[..|s|] == Chars(s) && (Chars(s) + rest)[|s|..] == rest
  {
    forall i | 0 <= i < |s| ensures IsBase64((Chars(s) + rest)[i]) { FindChar(s[i]); }
    assert rest != [] ==> (Chars(s) + rest)[|s|] == rest[0];
  }

  // ------------------------------------------------------------------ the loops

  /** The group's characters go behind what is there. */
  method PutChars(ret: seq<octet>, four: array<octet>, n: nat) returns (r: seq<octet>)
    requires four.Length == 4 && n <= 4 && forall k :: 0 <= k < 4 ==> four[k] < 64
    ensures r == ret + Chars(four[..n])
  {
    r := ret;
    var j := 0;
    while j < n
      invariant 0 <= j <= n && r == ret + Chars(four[..j])
    {
      r := r + [CharOf(four[j])];
      j := j + 1;
      assert Chars(four[..j]) == Chars(four[..j - 1]) + [CharOf(four[j - 1])];
    }
  }

  method Split(three: array<octet>, four: array<octet>)
    requires three.Length == 3 && four.Length == 4 && three != four
    modifies four
    ensures four[..] == Sextets(three[0], three[1], three[2])
  {
    hide Sextet0, Sextet1, Sextet2, Sextet3;
    four[0] := Sextet0(three[0]);
    four[1] := Sextet1(three[0], three[1]);
    four[2] := Sextet2(three[1], three[2]);
    four[3] := Sextet3(three[2]);
  }

  /** Fill the four values from the three octets, and put out the first n. */
  method PutGroup(ret: seq<octet>, three: array<octet>, four: array<octet>, n: nat) returns (r: seq<octet>)
    requires three.Length == 3 && four.Length == 4 && three != four && n <= 4
    modifies four
    ensures r == ret + Chars(Sextets(three[0], three[1], three[2])[..n])
  {
    Split(three, four);
    assert four[..][..n] == four[..n];
    hide Sextets, Chars;
    r := PutChars(ret, four, n);
  }

  /** What remains of a short group: zero octets, and PAD for what they stand for. */
  method PutShort(ret: seq<octet>, three: array<octet>, four: array<octet>, i: nat) returns (r: seq<octet>)
    requires three.Length == 3 && four.Length == 4 && three != four && 1 <= i <= 2
    modifies three, four
    ensures r == ret + Encode(old(three[..i]))
  {
    hide Sextets, Chars, Encode;
    ghost var b := three[..i];
    var j := i;
    while j < 3
      invariant i <= j <= 3 && three[..i] == b
      invariant forall k :: i <= k < j ==> three[k] == 0
    {
      three[j] := 0;
      j := j + 1;
    }
    ShortGroup(b);
    assert b[0] == three[0] && (if i == 2 then b[1] else 0) == three[1] && three[2] == 0;
    r := PutGroup(ret, three, four, i + 1);
    ghost var put := r;
    j := i;
    while j < 3
      invariant i <= j <= 3 && r == put + [PAD, PAD][..j - i]
    {
      r := r + [PAD];
      j := j + 1;
    }
  }

  method EncodeBytes(buf: seq<octet>) returns (ret: seq<octet>)
    ensures ret == Encode(buf)
  {
    hide Sextets, Chars, Encode;
    ret := [];
    var i, n := 0, 0;
    var three := new octet[3](_ => 0);
    var four := new octet[4](_ => 0);
    while n < |buf|
      invariant 0 <= i < 3 && i <= n <= |buf|
      invariant three[..i] == buf[n - i..n]
      invariant Encode(buf) == ret + Encode(buf[n - i..])
    {
      three[i] := buf[n];
      i := i + 1;
      n := n + 1;
      OneMore(three[..], i, buf, n);
      if i == 3 {
        EncodeFull(buf, n, ret, three[..]);
        ret := PutGroup(ret, three, four, 4);
        i := 0;
      }
    }
    assert buf[n - i..] == three[..i];
    if i > 0 {
      ret := PutShort(ret, three, four, i);
    } else {
      EncodeNone();
    }
  }

  lemma EncodeFull(buf: seq<octet>, n: nat, ret: seq<octet>, g: seq<octet>)
    requires 3 <= n <= |buf| && |g| == 3 && g == buf[n - 3..n]
    ensures ret + Encode(buf[n - 3..]) == ret + Chars(Sextets(g[0], g[1], g[2])[..4]) + Encode(buf[n..])
  {
    hide Chars, Sextets;
    var b := buf[n - 3..];
    assert b[3..] == buf[n..];
    var s := Sextets(g[0], g[1], g[2]);
    assert s[..4] == s;
    assert b[0] == g[0] && b[1] == g[1] && b[2] == g[2];
    assert ret + (Chars(s) + Encode(buf[n..])) == ret + Chars(s) + Encode(buf[n..]);
  }

  lemma OneMore(three: seq<octet>, i: nat, buf: seq<octet>, n: nat)
    requires 0 < i <= |three| && i <= n <= |buf| && three[..i - 1] == buf[n - i..n - 1] && three[i - 1] == buf[n - 1]
    ensures three[..i] == buf[n - i..n]
  {
    assert three[..i] == three[..i - 1] + [three[i - 1]];
    assert buf[n - i..n] == buf[n - i..n - 1] + [buf[n - 1]];
  }

  lemma EncodeNone()
    ensures Encode([]) == [] && Decode([]) == []
  {
  }

  lemma ShortGroup(b: seq<octet>)
    requires 1 <= |b| <= 2
    ensures Encode(b) == Chars(Sextets(b[0], if |b| == 2 then b[1] else 0, 0)[..|b| + 1]) + [PAD, PAD][..3 - |b|]
  {
    hide Chars, Sextets;
  }

  /** The group's characters become their positions, in place. */
  method Seek(four: array<octet>)
    requires four.Length == 4
    modifies four
    ensures forall k :: 0 <= k < 4 ==> four[k] == Find(old(four[k]))
  {
    var j := 0;
    while j < 4
      invariant 0 <= j <= 4
      invariant forall k :: 0 <= k < 4 ==> four[k] == if k < j then Find(old(four[k])) else old(four[k])
    {
      four[j] := Find(four[j]);
      j := j + 1;
    }
  }

  method Join(four: array<octet>, three: array<octet>)
    requires three.Length == 3 && four.Length == 4 && three != four
    modifies three
    ensures three[..] == Octets(four[..])
  {
    three[0] := (four[0] << 2) + ((four[1] & 0x30) >> 4);
    three[1] := ((four[1] & 0xf) << 4) + ((four[2] & 0x3c) >> 2);
    three[2] := ((four[2] & 0x3) << 6) + four[3];
  }

  /** Put the group's values together and put out the first n octets. */
  method PutOctets(ret: seq<octet>, four: array<octet>, three: array<octet>, n: nat) returns (r: seq<octet>)
    requires three.Length == 3 && four.Length == 4 && three != four && n <= 3
    modifies three
    ensures r == ret + Octets(four[..])[..n]
  {
    Join(four, three);
    hide Octets;
    assert three[..][..n] == three[..n];
    r := ret;
    var j := 0;
    while j < n
      invariant 0 <= j <= n && r == ret + three[..j]
    {
      r := r + [three[j]];
      j := j + 1;
    }
  }

  ghost predicate Holds(four: seq<octet>, t: seq<octet>)
  {
    |t| <= |four| && forall k :: 0 <= k < |t| ==> four[k] == t[k]
  }

  lemma NothingHeld(four: seq<octet>)
    ensures Holds(four, [])
  {
  }

  method Hold(four: array<octet>, i: nat, c: octet, ghost t: seq<octet>)
    requires i < four.Length && |t| == i && Holds(four[..], t) && IsBase64(c)
    modifies four
    ensures Holds(four[..], t + [c])
  {
    four[i] := c;
  }

  /** A group of four characters. */
  method PutRead(ret: seq<octet>, four: array<octet>, three: array<octet>, ghost t: seq<octet>) returns (r: seq<octet>)
    requires three.Length == 3 && four.Length == 4 && three != four && |t| == 4 && Holds(four[..], t)
    modifies three, four
    ensures r == ret + Octets(Values(t))
  {
    hide Octets, Values, Find;
    Seek(four);
    assert four[..] == Values(t);
    r := PutOctets(ret, four, three, 3);
  }

  /** The characters of a short group, with zeros behind them, which have no position. */
  method PutLast(ret: seq<octet>, four: array<octet>, three: array<octet>, i: nat, ghost t: seq<octet>)
    returns (r: seq<octet>)
    requires three.Length == 3 && four.Length == 4 && three != four
    requires 1 <= i <= 3 && Starts(t, i) && !Starts(t, i + 1) && Holds(four[..], t[..i])
    modifies three, four
    ensures r == ret + Decode(t)
  {
    hide Octets, Values, Find, Decode;
    var j := i;
    while j < 4
      invariant i <= j <= 4 && Holds(four[..], t[..i])
      invariant forall k :: i <= k < j ==> four[k] == 0
    {
      four[j] := 0;
      j := j + 1;
    }
    Seek(four);
    NoPosition();
    assert forall k :: 0 <= k < i ==> t[..i][k] == t[k];
    ShortRead(t, i, four[..]);
    r := PutOctets(ret, four, three, i - 1);
  }

  lemma NoPosition()
    ensures Find(0) == 255
  {
  }

  method DecodeString(s: seq<octet>) returns (ret: seq<octet>)
    ensures ret == Decode(s)
  {
    hide Octets, Values, Find, Decode, Holds;
    ret := [];
    var i, n := 0, 0;
    var four := new octet[4](_ => 0);
    var three := new octet[3](_ => 0);
    NothingHeld(four[..]);
    assert s[0..0] == [];
    while n < |s| && s[n] != PAD && IsBase64(s[n])
      invariant 0 <= i < 4 && i <= n <= |s|
      invariant Starts(s[n - i..], i)
      invariant Holds(four[..], s[n - i..n])
      invariant Decode(s) == ret + Decode(s[n - i..])
    {
      Hold(four, i, s[n], s[n - i..n]);
      assert s[n - i..n + 1] == s[n - i..n] + [s[n]];
      i := i + 1;
      n := n + 1;
      if i == 4 {
        DecodeFull(s, n, ret);
        ret := PutRead(ret, four, three, s[n - 4..n]);
        i := 0;
        NothingHeld(four[..]);
        assert s[n..n] == [];
      }
    }
    ghost var t := s[n - i..];
    assert !Starts(t, i + 1) by { if i < |t| { assert t[i] == s[n]; } }
    assert t[..i] == s[n - i..n];
    if i > 0 {
      ret := PutLast(ret, four, three, i, t);
    } else {
      DecodeNone(t);
    }
  }

  lemma DecodeNone(t: seq<octet>)
    requires !Starts(t, 1)
    ensures Decode(t) == []
  {
  }

  lemma DecodeFull(s: seq<octet>, n: nat, ret: seq<octet>)
    requires 4 <= n <= |s| && Starts(s[n - 4..], 4)
    ensures ret + Decode(s[n - 4..]) == ret + Octets(Values(s[n - 4..n])) + Decode(s[n..])
  {
    hide Octets, Values;
    var t := s[n - 4..];
    assert t[..4] == s[n - 4..n] && t[4..] == s[n..];
    assert ret + (Octets(Values(t[..4])) + Decode(s[n..])) == ret + Octets(Values(t[..4])) + Decode(s[n..]);
  }

  lemma ShortRead(t: seq<octet>, i: nat, four: seq<octet>)
    requires 1 <= i <= 3 && Starts(t, i) && !Starts(t, i + 1) && |four| == 4
    requires forall k :: 0 <= k < 4 ==> four[k] == if k < i then Find(t[k]) else 255
    ensures Decode(t) == Octets(four)[..i - 1]
  {
    hide Octets, Find;
    var v := Values(t[..i]);
    if i == 2 { assert four == v + [255, 255]; }
    if i == 3 { assert four == v + [255]; }
  }

  // ------------------------------------------------------- the tables themselves

  /** The alphabet of section 4 of RFC 4648, as ASCII. */
  lemma Alphabet()
    ensures CharOf(0) == 65 && CharOf(1) == 66 && CharOf(2) == 67 && CharOf(3) == 68 && CharOf(4) == 69 && CharOf(5) == 70 && CharOf(6) == 71 && CharOf(7) == 72
    ensures CharOf(8) == 73 && CharOf(9) == 74 && CharOf(10) == 75 && CharOf(11) == 76 && CharOf(12) == 77 && CharOf(13) == 78 && CharOf(14) == 79 && CharOf(15) == 80
    ensures CharOf(16) == 81 && CharOf(17) == 82 && CharOf(18) == 83 && CharOf(19) == 84 && CharOf(20) == 85 && CharOf(21) == 86 && CharOf(22) == 87 && CharOf(23) == 88
    ensures CharOf(24) == 89 && CharOf(25) == 90 && CharOf(26) == 97 && CharOf(27) == 98 && CharOf(28) == 99 && CharOf(29) == 100 && CharOf(30) == 101 && CharOf(31) == 102
    ensures CharOf(32) == 103 && CharOf(33) == 104 && CharOf(34) == 105 && CharOf(35) == 106 && CharOf(36) == 107 && CharOf(37) == 108 && CharOf(38) == 109 && CharOf(39) == 110
    ensures CharOf(40) == 111 && CharOf(41) == 112 && CharOf(42) == 113 && CharOf(43) == 114 && CharOf(44) == 115 && CharOf(45) == 116 && CharOf(46) == 117 && CharOf(47) == 118
    ensures CharOf(48) == 119 && CharOf(49) == 120 && CharOf(50) == 121 && CharOf(51) == 122 && CharOf(52) == 48 && CharOf(53) == 49 && CharOf(54) == 50 && CharOf(55) == 51
    ensures CharOf(56) == 52 && CharOf(57) == 53 && CharOf(58) == 54 && CharOf(59) == 55 && CharOf(60) == 56 && CharOf(61) == 57 && CharOf(62) == 43 && CharOf(63) == 47
  {
  }

  /** The test vectors "f", "fo" and "foo" of section 10 of RFC 4648. */
  lemma TestVectors()
    ensures Encode([102]) == [90, 103, 61, 61]
    ensures Encode([102, 111]) == [90, 109, 56, 61]
    ensures Encode([102, 111, 111]) == [90, 109, 57, 118]
  {
    Elements(Chars(Sextets(102, 0, 0)[..2]));
    Elements(Chars(Sextets(102, 111, 0)[..3]));
    Elements(Chars(Sextets(102, 111, 111)));
    assert Encode([]) == [];
  }

  lemma Elements(r: seq<octet>)
    ensures |r| == 2 ==> r == [r[0], r[1]]
    ensures |r| == 3 ==> r == [r[0], r[1], r[2]]
    ensures |r| == 4 ==> r == [r[0], r[1], r[2], r[3]]
  {
  }
}
