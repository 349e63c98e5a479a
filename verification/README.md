# Fake review detector: the text normalisers, modelled in Dafny

The fake review detector classifies product reviews as machine-generated
("Fake Review") or genuine ("Real Review"). Its only real logic is the
review text normaliser, which exists in three copies:

- `clean_text` in main.py, used by the `/predict` endpoint of the service;
- `clean_text` in train_model.py, used when the training set is built;
- `clean` in preprocess.py, an older variant.

Each takes a raw value and returns a cleaned, space-joined word string, or
`""` as a rejection marker. Around them sit the branching of
`predict_review` (main.py) and the row filters of the two
`preprocess_dataset` functions.

This project models all of that as pure Dafny functions over `seq<char>`.
The stopword set, the tokenizer (`nltk.word_tokenize`) and the fitted
vectorizer + classifier are parameters. It proves the properties the code
is meant to keep:

- the guards reject what they should;
- the output is lower-case, free of punctuation and single-spaced;
- every surviving word passes the stopword and length filter, in order;
- training and serving agree;
- the dataset filters keep exactly the right rows, in order.

Modules (one file each):

| module | file | what |
|---|---|---|
| `Base` | base.dfy | `Option`, `PyValue` (a `str` or anything else), the list-comprehension `Filter`, `IsSubsequence` |
| `Chars` | chars.dfy | `str.isspace()` / `\s` (exact), `\w`, `str.lower()`, `string.punctuation` (ASCII) |
| `Strings` | strings.dfy | `str.strip()`, `str.lower()`, `str.split()`, `' '.join`, `sub in s` |
| `CodePattern` | code_pattern.dfy | the regex `\b(import\|def\|function\|class\|return\|\.py\|print\|for \|if )\b` |
| `Normalize` | normalize.dfy | the tokenizer contract and the steps shared by serving and training |
| `Serving` | serving.dfy | main.py: `clean_text`, `predict_review` |
| `Training` | training.dfy | train_model.py: `clean_text`, `preprocess_dataset` |
| `Dataset` | dataset.dfy | the CSV row and the `CG`/`OR` label mapping both dataset scripts use |
| `Legacy` | legacy.dfy | preprocess.py: `clean`, `preprocess_dataset` |

The code-pattern regex is modelled as written:

- It is case-sensitive, so `Import` does not match.
- It runs on the original text, before stripping or lower-casing.
- `\b` treats the ends of the string as non-word positions.
- `\.py\b` needs a word character right before the dot.
- `for ` and `if ` need a word character right after the space. So `for` at
  the end of a review, or before punctuation, is not a match.

Reading this guard as "whole keywords plus the substring `.py`" would be
wrong. The regex as written differs from that reading, and the model follows
the regex.

A tokenizer is a function `string -> Option<seq<string>>`, where `None` means
the call raised. A text is *prepared* when it holds only lower-case word
characters and whitespace; that is what the normalisers hand the tokenizer,
since they lower-case and remove `[^\w\s]` first (`Normalize.PreparedText`).
A tokenizer is *faithful* when, on every prepared text it does not raise on,
every word it returns is non-empty and free of whitespace, and the words
together spell out exactly the non-whitespace characters of the text, in
order. Nothing is demanded on other texts. `word_tokenize` rewrites `"` into
quote tokens and splits off punctuation, but neither can happen on a
prepared text; there it only cuts at whitespace and inside words, as when it
splits `cannot` into `can` and `not`. The shape properties of the output
are proved for every faithful tokenizer. The whitespace fallback
`text.split()` is proved faithful (`Normalize.SplitTokenizerFaithful`).

## Model

| member | source | states |
|---|---|---|
| Strings.Strip | main.py:135 | `text.strip()` removes exactly the leading and trailing whitespace: the result is a contiguous part of the input with whitespace on both sides of it, and it is empty iff the input is all whitespace |
| Strings.Lower | main.py:142 | `text.lower()` keeps the length, leaves no upper-case letter, changes nothing but ASCII upper-case letters, turns each of those into the lower-case letter at the same place in the alphabet, and keeps every character's word, whitespace and punctuation class |
| Strings.LowerIdempotent | main.py:142 | lower-casing an already lower-cased text changes nothing |
| Strings.Split | main.py:151 | every word of `text.split()` is non-empty and free of whitespace |
| Strings.SplitSkipsSpace | main.py:151 | leading whitespace does not change the words of `text.split()` |
| Strings.SplitAtSpace | main.py:151 | `text.split()` cuts at every run of whitespace: the words of `a`, then a non-empty whitespace run, then `b` are the words of `a` followed by the words of `b` |
| Strings.SplitJoin | main.py:151-154 | splitting `' '.join(words)` on whitespace gives back the words when each is non-empty and free of whitespace |
| Strings.SplitCovers | main.py:151 | the words of `text.split()` concatenate to exactly the non-whitespace characters of the text, in order |
| Strings.JoinSingleSpaced | main.py:154 | `' '.join` of such words has no leading, trailing or doubled spaces, and is non-empty when there is a word |
| Strings.ContainsIff | preprocess.py:15 | the left-to-right scan for `keyword in text` succeeds iff the keyword occurs at some position |
| CodePattern.Search | main.py:139 | `re.search` returns the leftmost position at which some alternative matches between two word boundaries, or nothing when no position matches |
| CodePattern.HasCodePattern | main.py:139 | the guard fires iff some alternative of the regex occurs at some position with `\b` on both sides |
| CodePattern.MatchShape | main.py:139 | a match is lower-case text; a word keyword stands alone; `.py` follows a word character; `for `/`if ` are followed by a word character |
| Normalize.SplitTokenizerFaithful | main.py:148-151 | the words of `text.split()` are a faithful split of every text, prepared or not, so the whitespace fallback is a faithful tokenizer |
| Normalize.StripNonWord | main.py:143 | `re.sub(r'[^\w\s]', '', text)` keeps exactly the word and whitespace characters of the text, in order, every occurrence of each (its multiset of characters is that of the text restricted to those classes) |
| Base.FilterCount | main.py:153 | filtering keeps every occurrence of a kept element and no occurrence of a dropped one |
| Normalize.PreparedText | main.py:142-143 | after lower-casing and removing `[^\w\s]`, the text holds only lower-case word characters and whitespace, so what the tokenizer receives is prepared |
| Normalize.KeepContent | main.py:153 | a word is kept iff it is longer than 2 characters and not a stopword; the kept words keep their order and every occurrence of a kept word is kept |
| Normalize.JoinedContent | main.py:142-154 | for a faithful split of the prepared text, the joined content words contain only lower-case word characters and single spaces, and split back into exactly the content words |
| Serving.Words | main.py:146-151 | the words are the tokenizer's when it returns and those of `text.split()` when it raises; for a faithful tokenizer and a prepared text they split the text faithfully either way |
| Serving.CleanText | main.py:133-140 | the result is `""` for a non-string, for a text whose stripped length is below 10, and for a text the code regex matches anywhere, whatever its length |
| Serving.CleanTextShape | main.py:133-154 | for a faithful tokenizer, the output has only lower-case word characters and single spaces; each output word is longer than 2 and not a stopword; a non-empty output means both guards passed; when they pass, splitting the output gives back exactly the tokens of the lowered, punctuation-free text that pass the filter, in order and with repeats |
| Serving.FallbackIsSplit | main.py:146-151 | when the tokenizer always raises, cleaning is the same as with `text.split()` |
| Serving.PredictReview | main.py:160-186 | empty cleaned text gives the error payload; otherwise the answer echoes the input and is "Fake Review" iff the model label is 1, "Real Review" for any other label, and a server error iff the model raises |
| Serving.RejectionIgnoresClassifier | main.py:166-168 | a rejected review gets the error payload whatever the classifier would do, so the vectorizer and model are never consulted |
| Serving.SameCleanedTextSameLabel | main.py:166-175 | the label depends on the review only through its cleaned text |
| Serving.ShortReviewRejected | main.py:135-136 | the two-character review `ok` gets the error payload |
| Serving.CodeReviewRejected | main.py:139-140 | `def foo(): return 1` gets the error payload, although it is long enough |
| Training.CleanText | train_model.py:16-31 | `""` for a non-string, for a stripped length below 10, and when the serving regex matches; the call raises iff both guards pass and the tokenizer raises |
| Training.AgreesWithServing | train_model.py:16-31 | with equal stopword sets, a training result that does not raise equals the serving result; when training raises, serving equals its whitespace-fallback result |
| Training.AgreesWhenTokenizerNeverRaises | train_model.py:26 | with a tokenizer that never raises, training and serving return the same string for every input |
| Training.CleanTextShape | train_model.py:24-31 | for a faithful tokenizer, a training result has only lower-case word characters and single spaces, and each word is longer than 2 and not a stopword |
| Dataset.LabelCode | train_model.py:38 | `CG` maps to 1, `OR` maps to 0, every other label to a missing value |
| Training.ProcessRow | train_model.py:38-43 | a row raises iff its label is `CG`/`OR` and cleaning its text raises; otherwise it yields at most one output row, which keeps the input text, has label 1 for `CG` and 0 for `OR`, and carries the row's cleaned text, longer than 10 characters; the row yields nothing iff its label is not `CG`/`OR` or its cleaned text is at most 10 characters long |
| Training.PreprocessDataset | train_model.py:33-45 | no more rows come out than go in; the per-text cleaner is a parameter, which the script sets to `clean_text` (`Training.Cleaning`) |
| Training.PreprocessRaises | train_model.py:42 | preprocessing raises iff cleaning some row whose label maps raises |
| Training.PreprocessKeeps | train_model.py:38-43 | every kept row comes from an input row labelled `CG`/`OR` and has label 0 or 1 and a cleaned text longer than 10; every such input row is kept |
| Training.PreprocessAppend | train_model.py:38-43 | preprocessing a concatenation gives the concatenation of the results, so kept rows keep their relative order |
| Training.PreprocessOneRow | train_model.py:38-43 | a single row raises, is kept with its label and cleaned text, or is dropped, exactly as `ProcessRow` decides |
| Training.UnknownLabelDropped | train_model.py:38-39 | a row whose label is neither `CG` nor `OR` is dropped whatever its text and whatever the cleaner does |
| Training.KeptRowsShape | train_model.py:38-43 | with `clean_text` and a faithful tokenizer, every kept row has label 0 or 1 and a cleaned text longer than 10 characters of lower-case word characters and single spaces, whose words are longer than 2 and not stopwords |
| Legacy.LooksLikeCode | preprocess.py:15-16 | the guard fires iff one of `import`, `def`, `{`, `}`, `()`, `function`, `=`, `;` occurs as a substring, case-sensitively |
| Legacy.StripPunctuation | preprocess.py:19 | keeps exactly the characters outside `string.punctuation`, in order, every occurrence of each |
| Legacy.DropStopwords | preprocess.py:22 | a word is kept iff it is not a stopword; the kept words keep their order and every occurrence of a kept word is kept |
| Legacy.Clean | preprocess.py:10-16 | `""` for a non-string and whenever a code marker occurs anywhere |
| Legacy.CleanShape | preprocess.py:18-28 | with `Survivors` the words left after lower-casing, removing punctuation, splitting and dropping stopwords (preprocess.py:18-22): output has no punctuation, no upper-case letters, single spaces and no stopwords; a non-empty output has at least 4 words, which are the surviving words in order; the output is `""` iff non-string, code marker, or fewer than 4 surviving words |
| Legacy.DefinitelyIsRejected | preprocess.py:15-16 | `I definitely love this blender` is rejected because it contains `def` |
| Legacy.PreprocessDataset | preprocess.py:30-34 | for the per-text cleaner the script sets to `clean` (`Legacy.Cleaning`): every kept row carries its text's non-empty cleaned text; a row is kept iff its cleaned text is not `""`, whatever its label; kept rows appear in input order |
| Legacy.PreprocessAppend | preprocess.py:33-34 | preprocessing a concatenation gives the concatenation of the results |
| Legacy.UnknownLabelSurvives | preprocess.py:32-34 | a row with a label other than `CG`/`OR` and a non-empty cleaned text survives with a missing label (train_model.py drops it: `Training.UnknownLabelDropped`) |
| Legacy.KeptRowsShape | preprocess.py:32-34 | with `clean`, every kept row has a label that is 1, 0 or missing, and a cleaned text of at least 4 words, none a stopword, without punctuation or upper-case letters, single-spaced |

## Left out

- NLTK resource acquisition and its fallback download chain (main.py:18-88, nltk_resource_setup.py, download_nltk.py): filesystem and network I/O.
- The FastAPI app, CORS, `/health`, `/debug/punkt` and logging (main.py:91-100, 188-215): HTTP plumbing and filesystem inspection.
- The logging calls inside the core (main.py:149, 164, 176, 185): they have no effect on the result.
- Serving.PredictReview: the 500 response does not carry `detail=str(e)` (main.py:186), because exception messages come from foreign code. `ServerError` stands for any exception raised on main.py:170-173.
- Loading the pickled model and vectorizer (main.py:103-118) and the stopword list (main.py:121-131, train_model.py:28, preprocess.py:20): these become the `classify` and `stopwords` parameters.
- TF-IDF vectorisation, logistic regression, `predict_proba` and the `confidence` field (main.py:170-173): third-party numerics and floating point. The fitted pipeline is the `classify` parameter.
- `nltk.word_tokenize` itself: foreign code, modelled as the `tokenize` parameter. The shape properties hold for any tokenizer that splits prepared texts faithfully; that `word_tokenize` is one is read from its documented behaviour, not proved.
- Unicode beyond ASCII for `\w` and `str.lower()`: a non-ASCII letter counts as a non-word character and is not lower-cased. In the serving and training normalisers it is therefore removed by `[^\w\s]`, where Python would keep it. In preprocess.py's `clean` it stays in the output, but not lower-cased. The same ASCII reading of `\w` moves the regex's `\b` (main.py:139): in `caféimport` the model sees a boundary between `é` and `import` and reports a match, while Python, for which `é` is a word character, does not. `string.punctuation` is ASCII in Python too, and whitespace follows Python's full list, so both of those are exact.
- Reading the CSV with pandas and `train_test_split` (train_model.py:35, 57-59; preprocess.py:31, 35-37): I/O and randomness. The dataset functions start from the rows and stop before the split.
- Model training and saving (train_model.py:47-92), app.py (Streamlit UI), predict.py (it calls an undefined `clean`) and load_test.py: outside the normaliser core.
- Serving.PredictReview: does not state the `confidence` value, because it is a float from `predict_proba`.
- A concrete text the serving regex lets through, such as `definitely`: showing that no position matches is too costly for the verifier on literal strings. `CodePattern.MatchShape` states the rule in general instead.
