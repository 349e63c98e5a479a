/** The code-like-input guard shared by serving and training:
    `re.search(r'\b(import|def|function|class|return|\.py|print|for |if )\b', text)`.
    The search is case-sensitive and runs on the text as received. A match is
    one of the nine alternatives occurring at some position, with a word
    boundary `\b` right before it and right after it. */
module CodePattern {
  import opened Base
  import opened Chars

  /** The alternatives of the group, in the order they are written. */
  const Alternatives: seq<string> :=
    ["import", "def", "function", "class", "return", ".py", "print", "for ", "if "]

  /** `s[i]` exists and is a word character; positions outside `s` count as
      non-word, as they do for `\b`. */
  predicate WordCharAt(s: string, i: int) {
    0 <= i < |s| && IsWordChar(s[i])
  }

  /** `\b` at position `i` (between `s[i-1]` and `s[i]`): exactly one side
      is a word character. */
  predicate IsBoundary(s: string, i: int) {
    WordCharAt(s, i - 1) != WordCharAt(s, i)
  }

  /** Alternative number `k` matches `\b(...)\b` at position `i`. */
  predicate AlternativeAt(s: string, i: int, k: int) {
    && 0 <= k < |Alternatives|
    && 0 <= i && i + |Alternatives[k]| <= |s|
    && s[i..i + |Alternatives[k]|] == Alternatives[k]
    && IsBoundary(s, i)
    && IsBoundary(s, i + |Alternatives[k]|)
  }

  /** The regular expression finds a match somewhere in `s`. */
  ghost predicate Matches(s: string) {
    exists i, k :: AlternativeAt(s, i, k)
  }

  /** Some alternative numbered `k` or later matches at position `i` (the
      regex engine tries them in order, backtracking, at each start position). */
  function AlternativeFrom(s: string, i: int, k: nat): (b: bool)
    ensures b <==> exists k' | k <= k' < |Alternatives| :: AlternativeAt(s, i, k')
    decreases |Alternatives| - k
  {
    k < |Alternatives| && (AlternativeAt(s, i, k) || AlternativeFrom(s, i, k + 1))
  }

  predicate SomeAlternativeAt(s: string, i: int) {
    AlternativeFrom(s, i, 0)
  }

  /** `re.search` from position `i` on: the leftmost start position of a
      match, or `None`. */
  function Search(s: string, i: nat): (r: Option<nat>)
    requires i <= |s|
    ensures r.Some? ==> i <= r.value <= |s| && SomeAlternativeAt(s, r.value)
    ensures r.Some? ==> forall j | i <= j < r.value :: !SomeAlternativeAt(s, j)
    ensures r.None? ==> forall j | i <= j <= |s| :: !SomeAlternativeAt(s, j)
    decreases |s| - i
  {
    if SomeAlternativeAt(s, i) then Some(i)
    else if i == |s| then None
    else Search(s, i + 1)
  }

  /** The guard as the normalisers evaluate it. */
  function HasCodePattern(s: string): (b: bool)
    ensures b <==> Matches(s)
  {
    var r := Search(s, 0);
    assert forall i, k | AlternativeAt(s, i, k) :: SomeAlternativeAt(s, i);
    r.Some?
  }

  /** What a match looks like, spelled out: the matched text is lower-case
      (the search is case-sensitive, so `Import` or `DEF` never match); a
      keyword made of word characters stands alone (so `definitely` or
      `imports` do not match at that spot); `.py` needs a word character
      right before the dot; `for ` and `if ` need a word character right
      after the space, so `for` at the very end or before punctuation or a
      second space does not match. */
  lemma MatchShape(s: string, i: int, k: int)
    requires AlternativeAt(s, i, k)
    ensures forall j | i <= j < i + |Alternatives[k]| :: !IsUpper(s[j])
    ensures k < 5 || k == 6 ==> !WordCharAt(s, i - 1) && !WordCharAt(s, i + |Alternatives[k]|)
    ensures k == 5 ==> WordCharAt(s, i - 1) && !WordCharAt(s, i + 3)
    ensures k >= 7 ==> !WordCharAt(s, i - 1) && WordCharAt(s, i + |Alternatives[k]|)
  {
    var a := Alternatives[k];
    forall j | i <= j < i + |a|
      ensures !IsUpper(s[j])
    {
      assert s[j] == s[i..i + |a|][j - i];
    }
    assert a[0] == s[i] && a[|a| - 1] == s[i + |a| - 1];
  }
}
