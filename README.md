# Lemmatization stage of the document-preprocessing pipeline

This project models, in Dafny, the preprocessing core of `text_processing.py`. The pipeline turns raw documents into a lemmatized corpus for a TF-IDF vectorizer. The model covers four parts:

- **Stopword filter** (module `Stopwords`). A document is split on whitespace (`str.split()`), every word in the stopword set is dropped, and the rest is joined with single spaces.
- **Fail-soft tagging** (module `Tagging`). `ie_preprocess` splits the filtered text into sentences, tokenizes each sentence into words, and tags the words with parts of speech. If any of these calls raises, it returns the sentinel `''` instead. `get_pos` applies this to each document in a list.
- **POS mapper** (module `PosMapping`). `get_wordnet_pos` maps a Penn Treebank tag to a WordNet category (ADJ, VERB, NOUN, ADV) or to `None`, using the tag's first character.
- **Corpus lemmatizer** (module `Lemmatization`). `lemmatize` runs three nested loops. Each token yields one lemma, which is `''` for a token that is not a word and for an `IndexError`. Each sentence yields its lemmas joined by single spaces. Each document yields its sentence strings run together with no separator. The corpus holds one string per document, in input order.

Module `PyStrings` models the Python string built-ins the code calls: `str.split()`, `' '.join` and `''.join`. Lemmas pin `str.split()` down completely: every whitespace character is a cut, a single word is its own split, and splitting undoes a single-space join. `PyStrings.SplitOn` models `str.split(' ')`, which the code never calls. It is a reference definition, there to state that the slots of a space-joined sentence can be recovered. Module `Wrappers` holds the `Option` type.

The external linguistic calls are parameters of the model. `nltk.sent_tokenize`, `nltk.word_tokenize` and `nltk.pos_tag` are the three fields of `Tagging.LinguisticModel`. `WordNetLemmatizer.lemmatize` is the `Lemmatization.Lemmatizer` function. Each is a total function that returns `Option`, where `None` means the call raised. For the lemmatizer, `None` stands for an `IndexError`. A `None` pos hint means the lemmatizer was called without `pos`. The stopword list is a `set<string>` parameter; the code loads it once at module level.

`get_pos` and `lemmatize` append to lists inside `for` loops, so they are methods with loops. Their loop invariants prove them against the specification functions `Preprocess`, `TokenLemma`, `SentenceText` and `DocumentText`. The `try`/`except` body of the token loop is the method `LemmatizeToken`, which the innermost loop calls once per token. The filter, the tagging wrapper and the POS mapper are functions.

A consequence of the no-separator rule for documents: when a sentence ends in a valid word, that word's lemma runs straight into the first lemma of the next sentence. For example, "cat run" + "dog bark" gives "cat rundog bark". Most sentences end in punctuation, whose lemma is `''`, so a trailing space usually separates them. `DocumentTextAppend` states the plain concatenation.

A failed document yields the string `''`, not an empty list. Iterating over `''` visits no sentence. `Tagging.Tagged` has a `Sentinel` case for it, and `Tagged.Iterated()` gives no sentences for that case. An empty document is not a failure. It reaches the tagger as `""`, and its result depends on what `sent_tokenize("")` returns.

## Model

| member | source | states |
|---|---|---|
| `PyStrings.Split` | text_processing.py:7 | Every word that `document.split()` yields is non-empty and contains no whitespace. |
| `PyStrings.SplitCut` | text_processing.py:7 | Every whitespace character cuts: splitting `a + [c] + b` with `c` whitespace gives the words of `a` followed by the words of `b`. So runs of whitespace, and leading or trailing whitespace, produce no empty words. |
| `PyStrings.SplitWord` | text_processing.py:7 | A non-empty, whitespace-free string splits into exactly itself. |
| `PyStrings.SplitJoin` | text_processing.py:7 | Splitting `' '.join(words)` on whitespace gives `words` back, when each word is non-empty and has no whitespace. |
| `PyStrings.SplitKeepsNonSpace` | text_processing.py:7 | The words of `str.split()`, run together, are exactly the non-whitespace characters of the input, in order. |
| `Stopwords.Keep` | text_processing.py:7 | The comprehension result is no longer than the input, and a word is in it iff it is in the input and not a stopword. |
| `Stopwords.KeepAppend` | text_processing.py:7 | The filter preserves order: filtering `a + b` is filtering `a` followed by filtering `b`. |
| `Stopwords.FilterStopwordsWords` | text_processing.py:7 | The words of the filtered document are exactly the document's non-stopwords, in their original order. |
| `Stopwords.FilterStopwordsIdempotent` | text_processing.py:7 | Filtering an already filtered document leaves it unchanged. |
| `Stopwords.FilterStopwordsKeepsText` | text_processing.py:7 | When no word is a stopword, the filter only normalises whitespace: the non-space characters are unchanged. |
| `Tagging.MapAll` | text_processing.py:9-10 | A comprehension whose calls may raise gives a result iff every call returns; the result has one entry per input, in order. |
| `Tagging.TagTextFailSoft` | text_processing.py:6-13 | `ie_preprocess` returns the sentinel iff some tokenizing or tagging call raised. Otherwise it returns one tagged sentence per sentence found, in order, each the tagging of that sentence's words, with every surface form a string. |
| `Tagging.GetPos` | text_processing.py:15-20 | `get_pos` returns one entry per document, in order; entry i is `ie_preprocess` of document i alone. |
| `PosMapping.WordNetPosOf` | text_processing.py:24-34 | The tag maps to ADJ, VERB, NOUN or ADV iff its first character is 'J', 'V', 'N' or 'R' (case-sensitive); any other tag, including `""`, maps to `None`. |
| `PosMapping.FirstCharacterDecides` | text_processing.py:24-34 | Two non-empty tags with the same first character map to the same category. |
| `PosMapping.WordNetPosExamples` | text_processing.py:24-34 | The mapping gives "JJ"→ADJ, "VBZ"→VERB, "NN"→NOUN and "RB"→ADV; "", "DT" and the lower-case "jj" map to `None`. |
| `Lemmatization.LemmatizerCall` | text_processing.py:56-63 | The lemmatizer is called iff the surface form is a string that fully matches `[\w]+`. It is called on that word, with a pos hint iff the tag starts with J, V, N or R; the hint is that tag's WordNet category. |
| `Lemmatization.LemmatizeToken` | text_processing.py:54-65 | An invalid token gets `''`. A valid token gets the lemmatizer's answer for the word and the mapped hint, or `''` when that call raises `IndexError`. |
| `Lemmatization.InvalidTokenLemma` | text_processing.py:57-63 | A token that is not a string, or not a full word match, gets `''` whatever the lemmatizer would return. |
| `Lemmatization.ValidTokenLemma` | text_processing.py:56-65 | A valid token's lemma is the lemmatizer's answer for the word and the mapped hint, or `''` when that call raises `IndexError`. |
| `Lemmatization.TokenLemmaDependsOnCallOnly` | text_processing.py:54-65 | Two lemmatizers that agree on the one call a token makes give that token the same lemma. |
| `Lemmatization.SentenceLemmas` | text_processing.py:51-67 | Each token contributes exactly one lemma slot, in token order. |
| `Lemmatization.SentenceTexts` | text_processing.py:48-70 | Each sentence contributes exactly one string, in sentence order: its lemmas joined by single spaces. |
| `Lemmatization.Lemmatize` | text_processing.py:40-74 | `lemmatize` returns one string per input document, in order. String i is computed from document i alone: its sentence strings run together. |
| `Lemmatization.SentenceSlots` | text_processing.py:67-68 | For space-free lemmas, a sentence of n ≥ 1 tokens has exactly n − 1 spaces. Splitting it on `' '` gives back one slot per token, empty slots included. |
| `Lemmatization.TrailingEmptyLemma` | text_processing.py:62-68 | A last token whose lemma is `''` leaves a trailing space after the lemmas before it. |
| `Lemmatization.EmptyDocumentText` | text_processing.py:48-71 | Both the failure sentinel `''` and a document without sentences yield `""`. |
| `Lemmatization.SentenceTextsAppend` | text_processing.py:49-70 | The sentence strings of `a + b` are those of `a` followed by those of `b`. |
| `Lemmatization.DocumentTextAppend` | text_processing.py:70-71 | A document's string is the string of its first sentences followed directly by the string of the rest, with no separator. |
| `Lemmatization.OneSentenceDocument` | text_processing.py:70-71 | A one-sentence document's string is that sentence's string. |
| `Lemmatization.FailedDocumentText` | text_processing.py:5-13 | A document whose preprocessing raised contributes `""` to the lemmatized corpus. |
| `Lemmatization.ExampleDocument` | text_processing.py:40-74 | The tagged sentence cats/NNS running/VBG quickly/RB ./. becomes "cat run quickly ", given a lemmatizer that gives cat, run and quickly for its three words. |
| `PyStrings.JoinSeparatorCount` | text_processing.py:68 | `' '.join` of n ≥ 1 parts that contain no space has exactly n − 1 spaces. |
| `PyStrings.SplitOnJoin` | text_processing.py:68 | Splitting on the separator, by the reference definition `SplitOn`, undoes `' '.join` of n ≥ 1 parts that do not contain it. Empty parts are recovered too. |
| `PyStrings.JoinSnoc` | text_processing.py:68 | Joining one more part appends the separator and that part. |
| `PyStrings.ConcatAppend` | text_processing.py:71 | `''.join(a + b)` is `''.join(a)` followed by `''.join(b)`. |

## Left out

- `make_tfidf` (`text_processing.py:79-90`): a thin wrapper over sklearn's `TfidfVectorizer` and pandas that produces floating-point weights.
- The internals of `nltk.sent_tokenize`, `nltk.word_tokenize`, `nltk.pos_tag` and `WordNetLemmatizer.lemmatize`: external linguistic models, modelled as parameters that may fail.
- Loading the English stopword list at module level (`text_processing.py:2-3`): the set is a parameter.
- The unused `lemmatized_dict = {}` (`text_processing.py:42`) has no counterpart.
- `Lemmatization.IsWordChar`: Python 3's `\w` is Unicode-aware. The model accepts only ASCII letters, digits and `_`, so a non-ASCII word, such as one with an accented letter, counts as invalid here but valid in the source.
- `PyStrings.IsSpace` covers the code points that Python's `str.isspace` accepts. Whitespace defined by later Unicode versions is not tracked.
- Tokens are pairs `(Surface, tag)` with a string tag. Tuples shorter than two are not representable, and neither are non-string tags. In the source, a short tuple raises `IndexError` inside `get_wordnet_pos`, which is caught and gives `''`. A non-string tag raises an uncaught exception.
- `Lemmatization.Lemmatize`: only `IndexError` from the lemmatizer is modelled. In the source, any other exception the lemmatizer raises escapes `lemmatize` and aborts the whole corpus.
- `Tagging.Preprocess`: documents are strings. A non-string document, such as a missing value, would make `document.split()` raise, and the source would return the sentinel for it.
- `Tagging.GetPos` and `Lemmatization.Lemmatize` run sequentially, as the source does. No parallel processing is modelled.
