/** The training script train_model.py: its own copy of `clean_text` and the
    row filtering of `preprocess_dataset`. Reading the CSV, the train/test
    split and fitting the vectorizer and the classifier are not modelled. */
module Training {
  import opened Base
  import opened Chars
  import opened Strings
  import opened Normalize
  import opened Dataset
  import CodePattern
  import Serving

  /** train_model.py's `clean_text`. Unlike the serving copy it has no
      fallback: when `nltk.word_tokenize` raises, so does `clean_text`, which
      is `None` here. */
  function CleanText(x: PyValue, stopwords: set<string>, tokenize: Tokenizer): (r: Option<string>)
    ensures r.None? <==>
      x.PyStr? && |Strip(x.s)| >= 10 && !CodePattern.Matches(x.s) && tokenize(StripNonWord(Lower(x.s))).None?
    ensures !x.PyStr? || |Strip(x.s)| < 10 || CodePattern.Matches(x.s) ==> r == Some("")
  {
    if !x.PyStr? || |Strip(x.s)| < 10 then Some("")
    else if CodePattern.HasCodePattern(x.s) then Some("")
    else match tokenize(StripNonWord(Lower(x.s)))
      case None => None
      case Some(words) => Some(Join(KeepContent(words, stopwords)))
  }

  /** Training and serving clean a text the same way when they use the same
      stopwords and the tokenizer succeeds; when the tokenizer raises,
      training fails while serving falls back to `str.split()`. */
  lemma AgreesWithServing(x: PyValue, trainingStopwords: set<string>, servingStopwords: set<string>, tokenize: Tokenizer)
    requires trainingStopwords == servingStopwords
    ensures CleanText(x, trainingStopwords, tokenize).Some? ==>
      CleanText(x, trainingStopwords, tokenize).value == Serving.CleanText(x, servingStopwords, tokenize)
    ensures CleanText(x, trainingStopwords, tokenize).None? ==>
      Serving.CleanText(x, servingStopwords, tokenize) == Serving.CleanText(x, servingStopwords, SplitTokenizer)
  {
  }

  /** With a tokenizer that never raises, training and serving agree on
      every input. */
  lemma AgreesWhenTokenizerNeverRaises(stopwords: set<string>, tokenize: Tokenizer)
    requires forall t :: tokenize(t).Some?
    ensures forall x :: CleanText(x, stopwords, tokenize) == Some(Serving.CleanText(x, stopwords, tokenize))
  {
    forall x
      ensures CleanText(x, stopwords, tokenize) == Some(Serving.CleanText(x, stopwords, tokenize))
    {
      AgreesWithServing(x, stopwords, stopwords, tokenize);
    }
  }

  /** A training-side cleaned text has the serving-side shape: lower-case
      word characters and single spaces, every word longer than two
      characters and not a stopword. */
  lemma CleanTextShape(x: PyValue, stopwords: set<string>, tokenize: Tokenizer)
    requires Faithful(tokenize)
    ensures CleanText(x, stopwords, tokenize).Some? ==>
      var r := CleanText(x, stopwords, tokenize).value;
      && (forall c <- r :: c == ' ' || (IsWordChar(c) && !IsUpper(c)))
      && SingleSpaced(r)
      && (forall w <- Split(r) :: |w| > 2 && w !in stopwords)
  {
    AgreesWithServing(x, stopwords, stopwords, tokenize);
    Serving.CleanTextShape(x, stopwords, tokenize);
  }

  // ---------------------------------------------------------------------------
  // preprocess_dataset

  /** A row that survives: the mapped label and the `clean_text` column. */
  datatype LabeledRow = LabeledRow(target: int, text: PyValue, cleanText: string)

  /** The cleaning `preprocess_dataset` applies to every text: the cleaned
      text, or `None` when cleaning raises. */
  type Cleaner = PyValue -> Option<string>

  /** The script's cleaner: `clean_text` with the loaded stopwords and the
      tokenizer. */
  function Cleaning(stopwords: set<string>, tokenize: Tokenizer): Cleaner
  {
    x => CleanText(x, stopwords, tokenize)
  }

  /** A row is kept when its label maps and its cleaned text is longer
      than 10 characters. */
  predicate Kept(row: Row, clean: Cleaner) {
    && LabelCode(row.rawLabel).Some?
    && clean(row.text).Some?
    && |clean(row.text).value| > 10
  }

  /** Cleaning a row whose label survived `dropna` raises. */
  predicate Raises(row: Row, clean: Cleaner) {
    LabelCode(row.rawLabel).Some? && clean(row.text).None?
  }

  function KeptRow(row: Row, clean: Cleaner): LabeledRow
    requires Kept(row, clean)
  {
    LabeledRow(LabelCode(row.rawLabel).value, row.text, clean(row.text).value)
  }

  /** Both parts succeeded: their rows, in order; otherwise the failure. */
  function Both(a: Option<seq<LabeledRow>>, b: Option<seq<LabeledRow>>): Option<seq<LabeledRow>> {
    if a.Some? && b.Some? then Some(a.value + b.value) else None
  }

  lemma BothAssociative(x: Option<seq<LabeledRow>>, y: Option<seq<LabeledRow>>, z: Option<seq<LabeledRow>>)
    ensures Both(x, Both(y, z)) == Both(Both(x, y), z)
  {
    if x.Some? && y.Some? && z.Some? {
      assert x.value + (y.value + z.value) == (x.value + y.value) + z.value;
    }
  }

  /** The fate of one row: `None` if cleaning it raises, the row with its
      mapped label and cleaned text if it is kept, nothing if dropped. */
  function ProcessRow(row: Row, clean: Cleaner): (r: Option<seq<LabeledRow>>)
    ensures r.None? <==> LabelCode(row.rawLabel).Some? && clean(row.text).None?
    ensures r.Some? ==> |r.value| <= 1
    ensures r.Some? ==> forall t <- r.value ::
      && t.text == row.text
      && LabelCode(row.rawLabel) == Some(t.target)
      && (t.target == 0 || t.target == 1)
      && |t.cleanText| > 10
      && clean(row.text) == Some(t.cleanText)
    ensures r == Some([]) <==>
      LabelCode(row.rawLabel).None? || (clean(row.text).Some? && |clean(row.text).value| <= 10)
  {
    if Raises(row, clean) then None
    else if Kept(row, clean) then Some([KeptRow(row, clean)])
    else Some([])
  }

  /** train_model.py's `preprocess_dataset` after the CSV has been read:
      map the labels, drop rows whose label did not map, clean the text,
      drop rows whose cleaned text has 10 characters or fewer. `None` when
      cleaning some row raises. The script runs it with
      `Cleaning(stopwords, tokenize)`. */
  function PreprocessDataset(rows: seq<Row>, clean: Cleaner): (r: Option<seq<LabeledRow>>)
    ensures r.Some? ==> |r.value| <= |rows|
    decreases |rows|
  {
    if rows == [] then Some([])
    else Both(ProcessRow(rows[0], clean), PreprocessDataset(rows[1..], clean))
  }

  /** Preprocessing fails exactly when cleaning one of the rows whose label
      maps raises. */
  lemma {:induction false} PreprocessRaises(rows: seq<Row>, clean: Cleaner)
    ensures PreprocessDataset(rows, clean).None? <==> exists row <- rows :: Raises(row, clean)
    decreases |rows|
  {
    if rows != [] {
      PreprocessRaises(rows[1..], clean);
      assert forall x <- rows :: x == rows[0] || x in rows[1..];
      assert rows[0] in rows;
      assert forall x <- rows[1..] :: x in rows;
    }
  }

  /** The kept rows are exactly the rows whose label is `CG` or `OR` and
      whose cleaned text is longer than 10 characters, each carrying its
      mapped label (1 or 0) and its cleaned text. */
  lemma {:induction false} PreprocessKeeps(rows: seq<Row>, clean: Cleaner)
    requires PreprocessDataset(rows, clean).Some?
    ensures forall t <- PreprocessDataset(rows, clean).value ::
      exists row <- rows :: Kept(row, clean) && t == KeptRow(row, clean)
    ensures forall t <- PreprocessDataset(rows, clean).value ::
      (t.target == 0 || t.target == 1) && |t.cleanText| > 10 && clean(t.text) == Some(t.cleanText)
    ensures forall row <- rows :: Kept(row, clean) ==> KeptRow(row, clean) in PreprocessDataset(rows, clean).value
    decreases |rows|
  {
    if rows != [] {
      var row := rows[0];
      var out := PreprocessDataset(rows, clean).value;
      var rest := PreprocessDataset(rows[1..], clean);
      PreprocessKeeps(rows[1..], clean);
      assert out == ProcessRow(row, clean).value + rest.value;
      assert forall x <- rows :: x == row || x in rows[1..];
      assert forall x <- rows[1..] :: x in rows;
      assert row in rows;
      forall t <- out
        ensures exists row' <- rows :: Kept(row', clean) && t == KeptRow(row', clean)
      {
        if t !in rest.value {
          assert Kept(row, clean) && t == KeptRow(row, clean);
        }
      }
    }
  }

  /** Rows are processed independently and kept rows stay in their original
      relative order: preprocessing a concatenation is the concatenation of
      the preprocessed parts. */
  lemma {:induction false} PreprocessAppend(a: seq<Row>, b: seq<Row>, clean: Cleaner)
    ensures PreprocessDataset(a + b, clean) == Both(PreprocessDataset(a, clean), PreprocessDataset(b, clean))
    decreases |a|
  {
    if a == [] {
      assert a + b == b;
      var pb := PreprocessDataset(b, clean);
      if pb.Some? {
        assert [] + pb.value == pb.value;
      }
    } else {
      assert (a + b)[0] == a[0];
      assert (a + b)[1..] == a[1..] + b;
      PreprocessAppend(a[1..], b, clean);
      BothAssociative(ProcessRow(a[0], clean), PreprocessDataset(a[1..], clean), PreprocessDataset(b, clean));
    }
  }

  /** What happens to a single row: it raises, it is kept with its mapped
      label and cleaned text, or it is dropped. */
  lemma PreprocessOneRow(row: Row, clean: Cleaner)
    ensures Raises(row, clean) ==> PreprocessDataset([row], clean).None?
    ensures Kept(row, clean) ==> PreprocessDataset([row], clean) == Some([KeptRow(row, clean)])
    ensures !Raises(row, clean) && !Kept(row, clean) ==> PreprocessDataset([row], clean) == Some([])
  {
    assert [row][1..] == [];
    if Kept(row, clean) {
      assert [KeptRow(row, clean)] + [] == [KeptRow(row, clean)];
    }
  }

  /** A row whose label is neither `CG` nor `OR` is dropped whatever its
      text: its label becomes NaN and `dropna` removes it before cleaning.
      (preprocess.py keeps it: `Legacy.UnknownLabelSurvives`.) */
  lemma UnknownLabelDropped(row: Row, clean: Cleaner)
    requires row.rawLabel != PyStr("CG") && row.rawLabel != PyStr("OR")
    ensures PreprocessDataset([row], clean) == Some([])
  {
    PreprocessOneRow(row, clean);
  }

  /** Every row the script keeps, with a tokenizer that splits faithfully,
      has label 0 or 1 and a cleaned text longer than 10 characters made of
      lower-case word characters and single spaces, whose words are longer
      than two characters and not stopwords. */
  lemma KeptRowsShape(rows: seq<Row>, stopwords: set<string>, tokenize: Tokenizer)
    requires Faithful(tokenize)
    ensures var out := PreprocessDataset(rows, Cleaning(stopwords, tokenize));
      out.Some? ==> forall t <- out.value ::
        && (t.target == 0 || t.target == 1)
        && |t.cleanText| > 10
        && (forall c <- t.cleanText :: c == ' ' || (IsWordChar(c) && !IsUpper(c)))
        && SingleSpaced(t.cleanText)
        && (forall w <- Split(t.cleanText) :: |w| > 2 && w !in stopwords)
  {
    var clean := Cleaning(stopwords, tokenize);
    var out := PreprocessDataset(rows, clean);
    if out.Some? {
      PreprocessKeeps(rows, clean);
      forall t <- out.value
        ensures && (t.target == 0 || t.target == 1)
                && |t.cleanText| > 10
                && (forall c <- t.cleanText :: c == ' ' || (IsWordChar(c) && !IsUpper(c)))
                && SingleSpaced(t.cleanText)
                && (forall w <- Split(t.cleanText) :: |w| > 2 && w !in stopwords)
      {
        assert CleanText(t.text, stopwords, tokenize) == Some(t.cleanText);
        CleanTextShape(t.text, stopwords, tokenize);
      }
    }
  }
}
