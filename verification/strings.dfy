/** The Python string primitives the normalisers are built from:
    `str.strip()`, `str.lower()`, `str.split()`, `' '.join(...)` and the
    substring test `sub in s`. */
module Strings {
  import opened Base
  import opened Chars

  predicate AllSpace(s: string) {
    forall c <- s :: IsSpace(c)
  }

  predicate NoSpace(s: string) {
    forall c <- s :: !IsSpace(c)
  }

  /** A word as `str.split()` yields it: non-empty, without whitespace. */
  predicate IsToken(w: string) {
    w != [] && NoSpace(w)
  }

  /** `sub` occurs in `s` starting at index `i`. */
  predicate OccursAt(s: string, sub: string, i: int) {
    0 <= i && i + |sub| <= |s| && s[i..i + |sub|] == sub
  }

  /** No leading, no trailing and no two adjacent ' ' characters. */
  predicate SingleSpaced(s: string) {
    && (s != [] ==> s[0] != ' ' && s[|s| - 1] != ' ')
    && forall i | 0 <= i < |s| - 1 && s[i] == ' ' :: s[i + 1] != ' '
  }

  // ---------------------------------------------------------------------------
  // str.strip()

  /** Number of whitespace characters at the front of `s`. */
  function LeadingSpaces(s: string): (n: nat)
    ensures n <= |s|
    ensures forall i | 0 <= i < n :: IsSpace(s[i])
    ensures n < |s| ==> !IsSpace(s[n])
  {
    if s == [] || !IsSpace(s[0]) then 0 else 1 + LeadingSpaces(s[1..])
  }

  /** Number of whitespace characters at the back of `s`. */
  function TrailingSpaces(s: string): (n: nat)
    ensures n <= |s|
    ensures forall i | |s| - n <= i < |s| :: IsSpace(s[i])
    ensures n < |s| ==> !IsSpace(s[|s| - n - 1])
  {
    if s == [] || !IsSpace(s[|s| - 1]) then 0 else 1 + TrailingSpaces(s[..|s| - 1])
  }

  /** Python's `s.strip()`: the longest middle part of `s` that neither
      starts nor ends with whitespace, everything around it being whitespace. */
  function Strip(s: string): (r: string)
    ensures |r| <= |s|
    ensures r == [] <==> AllSpace(s)
    ensures r != [] ==> !IsSpace(r[0]) && !IsSpace(r[|r| - 1])
    ensures exists i :: OccursAt(s, r, i) && AllSpace(s[..i]) && AllSpace(s[i + |r|..])
  {
    var i := LeadingSpaces(s);
    var j := TrailingSpaces(s[i..]);
    StripParts(s, i, j);
    s[i..|s| - j]
  }

  lemma StripParts(s: string, i: nat, j: nat)
    requires i == LeadingSpaces(s) && j == TrailingSpaces(s[i..])
    ensures i + j <= |s|
    ensures AllSpace(s[..i]) && AllSpace(s[|s| - j..])
    ensures s[i..|s| - j] == [] <==> AllSpace(s)
    ensures i < |s| - j ==> !IsSpace(s[i]) && !IsSpace(s[|s| - j - 1])
  {
    StripEnds(s, i, j);
    StripEmpty(s, i, j);
    AllSpaceFront(s, i);
    AllSpaceBack(s, i, j);
  }

  /** When something non-space is left, it starts and ends with non-space. */
  lemma StripEnds(s: string, i: nat, j: nat)
    requires i == LeadingSpaces(s) && j == TrailingSpaces(s[i..])
    ensures i < |s| ==> j < |s| - i && !IsSpace(s[i]) && !IsSpace(s[|s| - j - 1])
  {
    if i < |s| {
      var t := s[i..];
      assert t[0] == s[i];
      assert j < |t|;
      var m := |t| - j - 1;
      assert !IsSpace(t[m]);
      assert t[m] == s[i + m];
    }
  }

  /** Nothing is left exactly when `s` is all whitespace. */
  lemma StripEmpty(s: string, i: nat, j: nat)
    requires i == LeadingSpaces(s) && j == TrailingSpaces(s[i..])
    ensures s[i..|s| - j] == [] <==> AllSpace(s)
  {
    StripEnds(s, i, j);
    if i < |s| {
      assert s[i] in s;
    } else {
      assert s == s[..i];
      AllSpaceFront(s, i);
    }
  }

  lemma AllSpaceFront(s: string, i: nat)
    requires i == LeadingSpaces(s)
    ensures AllSpace(s[..i])
  {
    forall c <- s[..i]
      ensures IsSpace(c)
    {
      var k :| 0 <= k < i && s[..i][k] == c;
    }
  }

  lemma AllSpaceBack(s: string, i: nat, j: nat)
    requires i <= |s| && j == TrailingSpaces(s[i..])
    ensures AllSpace(s[|s| - j..])
  {
    var t := s[i..];
    forall c <- s[|s| - j..]
      ensures IsSpace(c)
    {
      var k :| 0 <= k < j && s[|s| - j..][k] == c;
      assert t[|t| - j + k] == c;
    }
  }

  // ---------------------------------------------------------------------------
  // str.lower()

  /** Python's `s.lower()`, character by character. */
  function Lower(s: string): (r: string)
    ensures |r| == |s|
    ensures forall c <- r :: !IsUpper(c)
    ensures forall i | 0 <= i < |s| :: !IsUpper(s[i]) ==> r[i] == s[i]
    ensures forall i | 0 <= i < |s| :: IsUpper(s[i]) ==>
      IsLowerLetter(r[i]) && r[i] as int - 'a' as int == s[i] as int - 'A' as int
    ensures forall i | 0 <= i < |s| ::
      && (IsWordChar(r[i]) <==> IsWordChar(s[i]))
      && (IsSpace(r[i]) <==> IsSpace(s[i]))
      && (IsPunctuation(r[i]) <==> IsPunctuation(s[i]))
  {
    seq(|s|, i requires 0 <= i < |s| => ToLower(s[i]))
  }

  /** Lower-casing twice is lower-casing once. */
  lemma LowerIdempotent(s: string)
    ensures Lower(Lower(s)) == Lower(s)
  {
  }

  // ---------------------------------------------------------------------------
  // str.split() and ' '.join()

  /** Length of the run of non-whitespace characters at the front of `s`. */
  function TokenLength(s: string): (n: nat)
    ensures n <= |s|
    ensures forall i | 0 <= i < n :: !IsSpace(s[i])
    ensures n < |s| ==> IsSpace(s[n])
  {
    if s == [] || IsSpace(s[0]) then 0 else 1 + TokenLength(s[1..])
  }

  /** Python's `s.split()` with no argument: the maximal runs of
      non-whitespace characters, in order. */
  function Split(s: string): (ws: seq<string>)
    ensures forall w <- ws :: IsToken(w)
    decreases |s|
  {
    if s == [] then []
    else if IsSpace(s[0]) then Split(s[1..])
    else
      var n := TokenLength(s);
      assert forall c <- s[..n] :: !IsSpace(c);
      [s[..n]] + Split(s[n..])
  }

  /** Python's `' '.join(ws)`. */
  function Join(ws: seq<string>): string
  {
    if ws == [] then ""
    else if |ws| == 1 then ws[0]
    else ws[0] + " " + Join(ws[1..])
  }

  /** The concatenation of all words, `''.join(ws)`. */
  function Flatten(ws: seq<string>): string
  {
    if ws == [] then "" else ws[0] + Flatten(ws[1..])
  }

  /** A character of one of the words is a character of their concatenation. */
  lemma {:induction false} FlattenContains(ws: seq<string>, w: string, c: char)
    requires w in ws && c in w
    ensures c in Flatten(ws)
    decreases |ws|
  {
    if ws[0] != w {
      FlattenContains(ws[1..], w, c);
    }
  }

  /** Splitting a token followed by whitespace (or nothing) yields that token
      first. */
  lemma SplitToken(w: string, rest: string)
    requires IsToken(w)
    requires rest == [] || IsSpace(rest[0])
    ensures Split(w + rest) == [w] + Split(rest)
  {
    var s := w + rest;
    var n := TokenLength(s);
    forall i | 0 <= i < |w|
      ensures !IsSpace(s[i])
    {
      assert s[i] == w[i] && w[i] in w;
    }
    assert |w| < |s| ==> IsSpace(s[|w|]);
    assert n == |w|;
    assert s[..n] == w && s[n..] == rest;
  }

  /** Leading whitespace does not change the words. */
  lemma {:induction false} SplitSkipsSpace(sp: string, b: string)
    requires AllSpace(sp)
    ensures Split(sp + b) == Split(b)
    decreases |sp|
  {
    if sp == [] {
      assert sp + b == b;
    } else {
      assert sp[0] in sp;
      assert forall c <- sp[1..] :: c in sp;
      var t := sp + b;
      assert t[0] == sp[0] && IsSpace(t[0]);
      assert Split(t) == Split(t[1..]);
      assert t[1..] == sp[1..] + b;
      SplitSkipsSpace(sp[1..], b);
    }
  }

  /** `str.split()` cuts at every run of whitespace and nowhere else: the
      words of two texts separated by whitespace are the words of the first
      followed by the words of the second, so no two runs are ever merged. */
  lemma {:induction false} SplitAtSpace(a: string, sp: string, b: string)
    requires sp != [] && AllSpace(sp)
    ensures Split(a + sp + b) == Split(a) + Split(b)
    decreases |a|
  {
    var s := a + sp + b;
    assert sp[0] in sp;
    if a == [] {
      assert s == sp + b;
      SplitSkipsSpace(sp, b);
    } else if IsSpace(a[0]) {
      assert s[0] == a[0];
      assert s[1..] == a[1..] + sp + b;
      SplitAtSpace(a[1..], sp, b);
    } else {
      var n := TokenLength(a);
      var m := TokenLength(s);
      assert s[0] == a[0];
      assert n < |a| ==> IsSpace(s[n]) by {
        if n < |a| { assert s[n] == a[n]; }
      }
      assert n == |a| ==> IsSpace(s[n]) by {
        if n == |a| { assert s[n] == sp[0]; }
      }
      forall i | 0 <= i < n
        ensures !IsSpace(s[i])
      {
        assert s[i] == a[i];
      }
      assert m == n;
      assert s[..n] == a[..n];
      assert s[n..] == a[n..] + sp + b;
      SplitAtSpace(a[n..], sp, b);
      assert [a[..n]] + (Split(a[n..]) + Split(b)) == ([a[..n]] + Split(a[n..])) + Split(b);
    }
  }

  /** `str.split()` inverts `' '.join` on tokens: joining words that are
      non-empty and free of whitespace and splitting the result gives the
      words back. */
  lemma {:induction false} SplitJoin(ws: seq<string>)
    requires forall w <- ws :: IsToken(w)
    ensures Split(Join(ws)) == ws
    decreases |ws|
  {
    if ws == [] {
    } else if |ws| == 1 {
      assert ws[0] + [] == ws[0];
      SplitToken(ws[0], []);
    } else {
      assert ws[0] in ws;
      assert forall w <- ws[1..] :: w in ws;
      var j := Join(ws[1..]);
      assert ws[0] + " " + j == ws[0] + (" " + j);
      SplitToken(ws[0], " " + j);
      assert (" " + j)[1..] == j;
      SplitJoin(ws[1..]);
    }
  }

  /** The words `str.split()` returns are exactly the non-whitespace
      characters of the input, in order. */
  lemma {:induction false} SplitCovers(s: string)
    ensures Flatten(Split(s)) == Filter(s, NotSpace)
    decreases |s|
  {
    if s == [] {
    } else if IsSpace(s[0]) {
      assert s == [s[0]] + s[1..];
      FilterAppend([s[0]], s[1..], NotSpace);
      SplitCovers(s[1..]);
    } else {
      var n := TokenLength(s);
      assert s == s[..n] + s[n..];
      FilterAppend(s[..n], s[n..], NotSpace);
      FilterKeepsAll(s[..n], NotSpace);
      SplitCovers(s[n..]);
      assert ([s[..n]] + Split(s[n..]))[1..] == Split(s[n..]);
    }
  }

  /** Every character of a joined string is a space or a character of one
      of the words. */
  lemma {:induction false} JoinChars(ws: seq<string>, c: char)
    requires c in Join(ws)
    ensures c == ' ' || exists w <- ws :: c in w
    decreases |ws|
  {
    if |ws| > 1 {
      var j := Join(ws[1..]);
      if c !in ws[0] && c != ' ' {
        assert c in j;
        JoinChars(ws[1..], c);
      }
    }
  }

  /** Joining tokens produces a string with single spaces only. */
  lemma {:induction false} JoinSingleSpaced(ws: seq<string>)
    requires forall w <- ws :: IsToken(w)
    ensures SingleSpaced(Join(ws))
    ensures ws != [] ==> Join(ws) != []
    decreases |ws|
  {
    if ws == [] {
    } else if |ws| == 1 {
      var w := ws[0];
      assert w in ws;
      forall i | 0 <= i < |w|
        ensures w[i] != ' '
      {
        assert w[i] in w;
      }
    } else {
      var w := ws[0];
      assert w in ws;
      assert forall v <- ws[1..] :: v in ws;
      JoinSingleSpaced(ws[1..]);
      var j := Join(ws[1..]);
      var s := w + " " + j;
      forall i | 0 <= i < |w|
        ensures s[i] != ' '
      {
        assert s[i] == w[i] && w[i] in w;
      }
      forall i | 0 <= i < |s| - 1 && s[i] == ' '
        ensures s[i + 1] != ' '
      {
        if i > |w| {
          assert s[i] == j[i - |w| - 1];
          assert s[i + 1] == j[i - |w|];
        }
      }
    }
  }

  // ---------------------------------------------------------------------------
  // sub in s

  predicate IsPrefix(p: string, s: string) {
    |p| <= |s| && s[..|p|] == p
  }

  /** Python's `sub in s`, scanning the start positions left to right. */
  function Contains(s: string, sub: string): bool
    decreases |s|
  {
    IsPrefix(sub, s) || (s != [] && Contains(s[1..], sub))
  }

  /** The scan finds `sub` exactly when it occurs somewhere in `s`. */
  lemma {:induction false} ContainsIff(s: string, sub: string)
    ensures Contains(s, sub) <==> exists i :: OccursAt(s, sub, i)
    decreases |s|
  {
    if s != [] {
      ContainsIff(s[1..], sub);
      if Contains(s[1..], sub) {
        var i :| OccursAt(s[1..], sub, i);
        assert s[i + 1..i + 1 + |sub|] == s[1..][i..i + |sub|];
        assert OccursAt(s, sub, i + 1);
      }
      if i :| OccursAt(s, sub, i) && i > 0 {
        assert s[1..][i - 1..i - 1 + |sub|] == s[i..i + |sub|];
        assert OccursAt(s[1..], sub, i - 1);
      }
    }
    if i :| OccursAt(s, sub, i) && i == 0 {
      assert IsPrefix(sub, s);
    }
    if IsPrefix(sub, s) {
      assert OccursAt(s, sub, 0);
    }
  }
}
