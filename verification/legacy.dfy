/** The older preprocessing script preprocess.py: its normaliser `clean`
    and the row filter of its `preprocess_dataset`. Its guards and filters
    differ from the serving and training `clean_text`: a plain substring
    blacklist instead of the word-boundary regex, no length guard, removal of
    `string.punctuation` (underscore included), whitespace splitting only, no
    minimum word length, and at least four surviving words. */
module Legacy {
  import opened Base
  import opened Chars
  import opened Strings
  import opened Dataset

  /** The substrings whose presence anywhere marks a text as code. */
  const CodeMarkers: seq<string> := ["import", "def", "{", "}", "()", "function", "=", ";"]

  /** Some marker occurs in `s` as a substring, case-sensitively. */
  ghost predicate HasMarker(s: string) {
    exists k, i :: 0 <= k < |CodeMarkers| && OccursAt(s, CodeMarkers[k], i)
  }

  /** `any(keyword in text for keyword in [...])`. */
  function LooksLikeCode(s: string): (b: bool)
    ensures b <==> HasMarker(s)
  {
    var b := exists k | 0 <= k < |CodeMarkers| :: Contains(s, CodeMarkers[k]);
    assert forall k | 0 <= k < |CodeMarkers| :: Contains(s, CodeMarkers[k]) <==> exists i :: OccursAt(s, CodeMarkers[k], i) by {
      forall k | 0 <= k < |CodeMarkers|
        ensures Contains(s, CodeMarkers[k]) <==> exists i :: OccursAt(s, CodeMarkers[k], i)
      {
        ContainsIff(s, CodeMarkers[k]);
      }
    }
    b
  }

  /** `''.join([char for char in text if char not in string.punctuation])`. */
  function StripPunctuation(s: string): (r: string)
    ensures forall c <- r :: c in s && !IsPunctuation(c)
    ensures forall c <- s :: !IsPunctuation(c) ==> c in r
    ensures IsSubsequence(r, s)
    ensures forall c :: multiset(r)[c] == if IsPunctuation(c) then 0 else multiset(s)[c]
  {
    FilterCount(s, NotPunctuation);
    Filter(s, NotPunctuation)
  }

  /** `[word for word in words if word not in stop_words]`. */
  function DropStopwords(ws: seq<string>, stopwords: set<string>): (r: seq<string>)
    ensures forall w <- r :: w !in stopwords
    ensures forall w <- ws :: w in r <==> w !in stopwords
    ensures IsSubsequence(r, ws)
    ensures forall w :: multiset(r)[w] == if w in stopwords then 0 else multiset(ws)[w]
  {
    FilterCount(ws, w => w !in stopwords);
    Filter(ws, w => w !in stopwords)
  }

  /** The words of `text` that survive: split the lower-cased,
      punctuation-free text on whitespace and drop the stopwords. */
  function Survivors(s: string, stopwords: set<string>): seq<string> {
    DropStopwords(Split(StripPunctuation(Lower(s))), stopwords)
  }

  /** preprocess.py's `clean`. The empty string marks a rejected text. */
  function Clean(x: PyValue, stopwords: set<string>): (r: string)
    ensures !x.PyStr? ==> r == ""
    ensures x.PyStr? && HasMarker(x.s) ==> r == ""
  {
    if !x.PyStr? then ""
    else if LooksLikeCode(x.s) then ""
    else
      var words := Survivors(x.s, stopwords);
      if |words| < 4 then "" else Join(words)
  }

  /** What `clean` produces: no punctuation and no upper-case letters, single
      spaces, no stopword; a non-empty result has at least four words, which
      are exactly the surviving words in their original order; and the
      result is empty exactly when the input is not a string, contains a
      code marker, or has fewer than four surviving words. */
  lemma {:induction false} CleanShape(x: PyValue, stopwords: set<string>)
    ensures var r := Clean(x, stopwords);
      && (forall c <- r :: !IsPunctuation(c) && !IsUpper(c))
      && SingleSpaced(r)
      && (forall w <- Split(r) :: w !in stopwords)
      && (r != "" ==> |Split(r)| >= 4)
    ensures var r := Clean(x, stopwords);
      r == "" <==> !x.PyStr? || HasMarker(x.s) || |Survivors(x.s, stopwords)| < 4
    ensures var r := Clean(x, stopwords);
      r != "" ==> Split(r) == Survivors(x.s, stopwords)
  {
    if x.PyStr? && !LooksLikeCode(x.s) {
      var t := StripPunctuation(Lower(x.s));
      var words := Survivors(x.s, stopwords);
      if |words| >= 4 {
        var r := Join(words);
        assert forall w <- words :: w in Split(t);
        SplitJoin(words);
        JoinSingleSpaced(words);
        forall c <- r
          ensures !IsPunctuation(c) && !IsUpper(c)
        {
          JoinChars(words, c);
          if c != ' ' {
            var w :| w in words && c in w;
            FlattenContains(Split(t), w, c);
            SplitCovers(t);
            var k :| 0 <= k < |Lower(x.s)| && Lower(x.s)[k] == c;
          }
        }
      }
    }
  }

  /** `definitely` contains `def`, so `clean` rejects any text with that
      word, although the serving regex requires `def` to stand alone. */
  lemma DefinitelyIsRejected(stopwords: set<string>)
    ensures Clean(PyStr("I definitely love this blender"), stopwords) == ""
  {
    var s := "I definitely love this blender";
    assert s[2] == 'd' && s[3] == 'e' && s[4] == 'f';
    assert s[2..5] == CodeMarkers[1];
    assert OccursAt(s, CodeMarkers[1], 2);
  }

  // ---------------------------------------------------------------------------
  // preprocess_dataset

  /** A row after cleaning: the mapped label (`None` is NaN: the label was
      neither `CG` nor `OR`), the text and the `clean_text` column. */
  datatype CleanRow = CleanRow(target: Option<int>, text: PyValue, cleanText: string)

  /** The script's cleaner: `clean` with the loaded stopwords. */
  function Cleaning(stopwords: set<string>): PyValue -> string
  {
    x => Clean(x, stopwords)
  }

  function CleanRowOf(row: Row, clean: PyValue -> string): CleanRow {
    CleanRow(LabelCode(row.rawLabel), row.text, clean(row.text))
  }

  function CleanRows(rows: seq<Row>, clean: PyValue -> string): seq<CleanRow>
  {
    seq(|rows|, i requires 0 <= i < |rows| => CleanRowOf(rows[i], clean))
  }

  predicate NonEmptyClean(t: CleanRow) {
    t.cleanText != ""
  }

  /** preprocess.py's `preprocess_dataset` up to the train/test split: map
      the labels, clean every text, keep the rows whose cleaned text is not
      empty. Rows are never dropped for their label. The script runs it with
      `Cleaning(stopwords)`. */
  function PreprocessDataset(rows: seq<Row>, clean: PyValue -> string): (r: seq<CleanRow>)
    ensures |r| <= |rows|
    ensures forall t <- r :: t.cleanText != "" && t.cleanText == clean(t.text)
    ensures forall row <- rows :: CleanRowOf(row, clean) in r <==> clean(row.text) != ""
    ensures IsSubsequence(r, CleanRows(rows, clean))
  {
    var all := CleanRows(rows, clean);
    assert forall t <- all :: t.cleanText == clean(t.text);
    forall row <- rows
      ensures CleanRowOf(row, clean) in all
    {
      var i :| 0 <= i < |rows| && rows[i] == row;
      assert all[i] == CleanRowOf(row, clean);
    }
    Filter(all, NonEmptyClean)
  }

  /** Rows are filtered independently and keep their relative order. */
  lemma PreprocessAppend(a: seq<Row>, b: seq<Row>, clean: PyValue -> string)
    ensures PreprocessDataset(a + b, clean) == PreprocessDataset(a, clean) + PreprocessDataset(b, clean)
  {
    assert CleanRows(a + b, clean) == CleanRows(a, clean) + CleanRows(b, clean);
    FilterAppend(CleanRows(a, clean), CleanRows(b, clean), NonEmptyClean);
  }

  /** A row whose label is neither `CG` nor `OR` survives, with a missing
      label, when its text cleans to something: this script never drops a
      row for its label (train_model.py does: `Training.UnknownLabelDropped`). */
  lemma UnknownLabelSurvives(row: Row, clean: PyValue -> string)
    requires row.rawLabel != PyStr("CG") && row.rawLabel != PyStr("OR")
    requires clean(row.text) != ""
    ensures PreprocessDataset([row], clean) == [CleanRow(None, row.text, clean(row.text))]
  {
    assert CleanRows([row], clean) == [CleanRowOf(row, clean)];
    assert [CleanRowOf(row, clean)][1..] == [];
  }

  /** Every row the script keeps carries a `clean` output: at least four
      words, none a stopword, no punctuation, no upper-case letter, single
      spaces, and a label that is 1, 0 or missing. */
  lemma KeptRowsShape(rows: seq<Row>, stopwords: set<string>)
    ensures forall t <- PreprocessDataset(rows, Cleaning(stopwords)) ::
      && (t.target.Some? ==> t.target.value == 0 || t.target.value == 1)
      && |Split(t.cleanText)| >= 4
      && (forall w <- Split(t.cleanText) :: w !in stopwords)
      && (forall c <- t.cleanText :: !IsPunctuation(c) && !IsUpper(c))
      && SingleSpaced(t.cleanText)
  {
    var clean := Cleaning(stopwords);
    var out := PreprocessDataset(rows, clean);
    forall t <- out
      ensures && (t.target.Some? ==> t.target.value == 0 || t.target.value == 1)
              && |Split(t.cleanText)| >= 4
              && (forall w <- Split(t.cleanText) :: w !in stopwords)
              && (forall c <- t.cleanText :: !IsPunctuation(c) && !IsUpper(c))
              && SingleSpaced(t.cleanText)
    {
      var all := CleanRows(rows, clean);
      assert t in all;
      var i :| 0 <= i < |all| && all[i] == t;
      assert t.target == LabelCode(rows[i].rawLabel);
      assert t.cleanText == Clean(t.text, stopwords);
      CleanShape(t.text, stopwords);
    }
  }
}
