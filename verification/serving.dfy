/** The prediction service of main.py: its `clean_text` normaliser and the
    branching of the `/predict` endpoint. The stopword set, the tokenizer and
    the fitted vectorizer + classifier are parameters. */
module Serving {
  import opened Base
  import opened Chars
  import opened Strings
  import opened Normalize
  import CodePattern

  /** `model.predict(vectorizer.transform([cleaned]))[0]`: the label the
      fitted pipeline gives a cleaned text, or `None` when any of the calls
      that follow the guard raises: `transform`, `predict`, `predict_proba`
      or `max`. */
  type Classifier = string -> Option<int>

  const InvalidReviewMessage: string := "Invalid review. Too short or contains code patterns."
  const FakeLabel: string := "Fake Review"
  const RealLabel: string := "Real Review"

  /** The JSON body `/predict` answers with. The `confidence` field of a
      prediction is not modelled. */
  datatype Response =
    | Invalid(error: string)                          // {"error": ...}
    | Predicted(input: string, prediction: string)    // {"input": ..., "prediction": ..., ...}
    | ServerError                                     // HTTPException(status_code=500); `detail` not modelled

  /** The words of the prepared text: the tokenizer's, or `text.split()`
      when the tokenizer raises. */
  function Words(tokenize: Tokenizer, t: string): (ws: seq<string>)
    ensures tokenize(t).Some? ==> ws == tokenize(t).value
    ensures tokenize(t).None? ==> ws == Split(t)
    ensures Faithful(tokenize) && Prepared(t) ==> IsTokenization(ws, t)
  {
    match tokenize(t)
    case Some(ws) => ws
    case None => SplitCovers(t); Split(t)
  }

  /** main.py's `clean_text`. The empty string marks a rejected review. */
  function CleanText(x: PyValue, stopwords: set<string>, tokenize: Tokenizer): (r: string)
    ensures !x.PyStr? || |Strip(x.s)| < 10 || CodePattern.Matches(x.s) ==> r == ""
  {
    if !x.PyStr? || |Strip(x.s)| < 10 then ""
    else if CodePattern.HasCodePattern(x.s) then ""
    else Join(KeepContent(Words(tokenize, StripNonWord(Lower(x.s))), stopwords))
  }

  /** What a serving-side cleaned text looks like, for a tokenizer that
      splits prepared text faithfully (the whitespace fallback always does):
      only lower-case word characters and single spaces; every word longer
      than two characters and not a stopword; and its words are the content
      words of the tokens of the lower-cased, punctuation-free text, every
      occurrence kept, in their original order. A non-empty result means the
      input passed both guards. */
  lemma {:induction false} CleanTextShape(x: PyValue, stopwords: set<string>, tokenize: Tokenizer)
    requires Faithful(tokenize)
    ensures var r := CleanText(x, stopwords, tokenize);
      && (forall c <- r :: c == ' ' || (IsWordChar(c) && !IsUpper(c)))
      && SingleSpaced(r)
      && (forall w <- Split(r) :: |w| > 2 && w !in stopwords)
    ensures var r := CleanText(x, stopwords, tokenize);
      r != "" ==> x.PyStr? && |Strip(x.s)| >= 10 && !CodePattern.Matches(x.s)
    ensures x.PyStr? && |Strip(x.s)| >= 10 && !CodePattern.Matches(x.s) ==>
      var ws := Words(tokenize, StripNonWord(Lower(x.s)));
      var r := CleanText(x, stopwords, tokenize);
      && Split(r) == KeepContent(ws, stopwords)
      && IsSubsequence(Split(r), ws)
      && (forall w <- ws :: w in Split(r) <==> |w| > 2 && w !in stopwords)
  {
    if x.PyStr? && |Strip(x.s)| >= 10 && !CodePattern.Matches(x.s) {
      PreparedText(x.s);
      JoinedContent(x.s, Words(tokenize, StripNonWord(Lower(x.s))), stopwords);
    }
  }

  /** The whitespace fallback is what serving does when the tokenizer is
      unavailable: a tokenizer that always raises and `str.split()` give the
      same cleaned text. */
  lemma FallbackIsSplit(x: PyValue, stopwords: set<string>, tokenize: Tokenizer)
    requires forall t :: tokenize(t).None?
    ensures CleanText(x, stopwords, tokenize) == CleanText(x, stopwords, SplitTokenizer)
  {
  }

  /** main.py's `predict_review`. */
  function PredictReview(review: string, stopwords: set<string>, tokenize: Tokenizer, classify: Classifier): (resp: Response)
    ensures resp.Invalid? <==> CleanText(PyStr(review), stopwords, tokenize) == ""
    ensures resp.Invalid? ==> resp.error == InvalidReviewMessage
    ensures resp.Predicted? ==> resp.input == review
    ensures resp.Predicted? ==>
      (resp.prediction == FakeLabel <==> classify(CleanText(PyStr(review), stopwords, tokenize)) == Some(1))
    ensures resp.Predicted? ==> resp.prediction == FakeLabel || resp.prediction == RealLabel
    ensures resp.ServerError? <==>
      CleanText(PyStr(review), stopwords, tokenize) != "" && classify(CleanText(PyStr(review), stopwords, tokenize)).None?
  {
    var cleaned := CleanText(PyStr(review), stopwords, tokenize);
    if cleaned == "" then Invalid(InvalidReviewMessage)
    else match classify(cleaned)
      case None => ServerError
      case Some(pred) => Predicted(review, if pred == 1 then FakeLabel else RealLabel)
  }

  /** A rejected review never reaches the vectorizer or the model: the
      answer is the same whatever the classifier does. */
  lemma RejectionIgnoresClassifier(review: string, stopwords: set<string>, tokenize: Tokenizer, c1: Classifier, c2: Classifier)
    requires CleanText(PyStr(review), stopwords, tokenize) == ""
    ensures PredictReview(review, stopwords, tokenize, c1) == PredictReview(review, stopwords, tokenize, c2)
    ensures PredictReview(review, stopwords, tokenize, c1) == Invalid(InvalidReviewMessage)
  {
  }

  /** The classifier only sees the cleaned text: two reviews that clean to
      the same string get the same kind of answer and the same label, each
      echoing its own input. */
  lemma SameCleanedTextSameLabel(r1: string, r2: string, stopwords: set<string>, tokenize: Tokenizer, classify: Classifier)
    ensures CleanText(PyStr(r1), stopwords, tokenize) == CleanText(PyStr(r2), stopwords, tokenize) ==>
      var a, b := PredictReview(r1, stopwords, tokenize, classify), PredictReview(r2, stopwords, tokenize, classify);
      && (a.Invalid? <==> b.Invalid?)
      && (a.ServerError? <==> b.ServerError?)
      && (a.Predicted? ==> b.Predicted? && a.prediction == b.prediction && a.input == r1 && b.input == r2)
  {
  }

  /** A two-character review such as `ok` is rejected as too short. */
  lemma ShortReviewRejected(stopwords: set<string>, tokenize: Tokenizer, classify: Classifier)
    ensures PredictReview("ok", stopwords, tokenize, classify) == Invalid(InvalidReviewMessage)
  {
    assert |Strip("ok")| <= 2;
  }

  /** `def foo(): return 1` is rejected as code-like although it is long
      enough. */
  lemma CodeReviewRejected(stopwords: set<string>, tokenize: Tokenizer, classify: Classifier)
    ensures PredictReview("def foo(): return 1", stopwords, tokenize, classify) == Invalid(InvalidReviewMessage)
  {
    assert CodePattern.AlternativeAt("def foo(): return 1", 0, 1);
  }
}
