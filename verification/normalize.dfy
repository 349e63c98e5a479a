/** The steps the serving and the training `clean_text` share once an input
    has passed their guards: lower-casing, `re.sub(r'[^\w\s]', '', text)`,
    tokenising, dropping stopwords and words of length at most 2, and joining
    with single spaces. The tokenizer is a parameter. */
module Normalize {
  import opened Base
  import opened Chars
  import opened Strings

  /** `nltk.word_tokenize`: the words of a text, or `None` when the call
      raises (for example when the Punkt data cannot be found). */
  type Tokenizer = string -> Option<seq<string>>

  /** `ws` splits `t` into words the way a tokenizer does on text that holds
      only word characters and whitespace: every word is non-empty and free
      of whitespace, and together the words spell out exactly the
      non-whitespace characters of `t`, in order. (A tokenizer may cut one
      whitespace-delimited run into several words, as word_tokenize does with
      `cannot` -> `can`, `not`.) */
  ghost predicate IsTokenization(ws: seq<string>, t: string) {
    && (forall w <- ws :: IsToken(w))
    && Flatten(ws) == Filter(t, NotSpace)
  }

  /** A text as the normalisers hand it to the tokenizer: lower-case word
      characters and whitespace only. */
  ghost predicate Prepared(t: string) {
    forall c <- t :: IsWordOrSpace(c) && !IsUpper(c)
  }

  /** Whenever the tokenizer returns on a prepared text, it returns a
      tokenization of it. Nothing is demanded on other texts, where
      `word_tokenize` may rewrite characters (it turns `"` into two-character
      quote tokens, for example). */
  ghost predicate Faithful(tokenize: Tokenizer) {
    forall t | Prepared(t) :: tokenize(t).Some? ==> IsTokenization(tokenize(t).value, t)
  }

  /** The fallback `text.split()`, seen as a tokenizer that never raises. */
  function SplitTokenizer(t: string): Option<seq<string>> {
    Some(Split(t))
  }

  /** `str.split()` is a tokenization of every text, so the whitespace
      tokenizer is faithful. */
  lemma SplitTokenizerFaithful()
    ensures forall t :: IsTokenization(Split(t), t)
    ensures Faithful(SplitTokenizer)
  {
    forall t
      ensures IsTokenization(Split(t), t)
    {
      SplitCovers(t);
    }
  }

  /** `re.sub(r'[^\w\s]', '', text)`: delete every character that is neither a
      word character nor whitespace. */
  function StripNonWord(s: string): (r: string)
    ensures forall c <- r :: c in s && IsWordOrSpace(c)
    ensures forall c <- s :: IsWordOrSpace(c) ==> c in r
    ensures IsSubsequence(r, s)
    ensures forall c :: multiset(r)[c] == if IsWordOrSpace(c) then multiset(s)[c] else 0
  {
    FilterCount(s, IsWordOrSpace);
    Filter(s, IsWordOrSpace)
  }

  /** A word the comprehension `[w for w in words if w not in stopwords_set
      and len(w) > 2]` keeps. */
  predicate Survives(w: string, stopwords: set<string>) {
    w !in stopwords && |w| > 2
  }

  /** The content words of `ws`: the stopword and length filter. */
  function KeepContent(ws: seq<string>, stopwords: set<string>): (r: seq<string>)
    ensures forall w <- r :: Survives(w, stopwords)
    ensures forall w <- ws :: w in r <==> Survives(w, stopwords)
    ensures IsSubsequence(r, ws)
    ensures forall w :: multiset(r)[w] == if Survives(w, stopwords) then multiset(ws)[w] else 0
  {
    FilterCount(ws, w => Survives(w, stopwords));
    Filter(ws, w => Survives(w, stopwords))
  }

  /** The characters of the words of a tokenization come from the text and
      are not whitespace. */
  lemma TokenizationChars(ws: seq<string>, t: string, w: string, c: char)
    requires IsTokenization(ws, t)
    requires w in ws && c in w
    ensures c in t && !IsSpace(c)
  {
    FlattenContains(ws, w, c);
  }

  /** The text that reaches the tokenizer holds only lower-case word
      characters and whitespace. */
  lemma PreparedChars(s: string, c: char)
    requires c in StripNonWord(Lower(s))
    ensures IsWordOrSpace(c) && !IsUpper(c)
  {
    var k :| 0 <= k < |Lower(s)| && Lower(s)[k] == c;
  }

  /** Lower-casing and removing non-word characters prepares any text. */
  lemma PreparedText(s: string)
    ensures Prepared(StripNonWord(Lower(s)))
  {
    forall c <- StripNonWord(Lower(s))
      ensures IsWordOrSpace(c) && !IsUpper(c)
    {
      PreparedChars(s, c);
    }
  }

  /** Joining the content words of a tokenization of the prepared text gives
      a string of lower-case word characters separated by single spaces, and
      splitting it gives back exactly the content words, in order. */
  lemma {:induction false} JoinedContent(s: string, ws: seq<string>, stopwords: set<string>)
    requires IsTokenization(ws, StripNonWord(Lower(s)))
    ensures forall c <- Join(KeepContent(ws, stopwords)) :: c == ' ' || (IsWordChar(c) && !IsUpper(c))
    ensures SingleSpaced(Join(KeepContent(ws, stopwords)))
    ensures Split(Join(KeepContent(ws, stopwords))) == KeepContent(ws, stopwords)
  {
    var kept := KeepContent(ws, stopwords);
    var r := Join(kept);
    assert forall w <- kept :: IsToken(w);
    SplitJoin(kept);
    JoinSingleSpaced(kept);
    forall c <- r
      ensures c == ' ' || (IsWordChar(c) && !IsUpper(c))
    {
      JoinChars(kept, c);
      if c != ' ' {
        var w :| w in kept && c in w;
        TokenizationChars(ws, StripNonWord(Lower(s)), w, c);
        PreparedChars(s, c);
      }
    }
  }
}
