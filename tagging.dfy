/**
 * `ie_preprocess` and `get_pos`: stopword filtering, then sentence splitting, word
 * tokenizing and part-of-speech tagging by an external linguistic model, with a
 * fail-soft wrapper that turns any exception into the sentinel `''`.
 */
module Tagging {
  import opened Wrappers
  import opened Stopwords

  /** The surface form of a token: a Python `str`, or some other object. */
  datatype Surface = Str(text: string) | NonStr

  /** A tagged word, the pair `(word, tag)`. */
  datatype Token = Token(surface: Surface, tag: string)

  type Sentence = seq<Token>

  /**
   * What `ie_preprocess` returns: the tagged sentences, or the sentinel `''` when a
   * step raised. Iterating over the sentinel visits no sentence.
   */
  datatype Tagged = Sentences(sentences: seq<Sentence>) | Sentinel {
    /** The sentences `for sent in doc` visits. */
    function Iterated(): seq<Sentence> {
      if Sentences? then sentences else []
    }
  }

  /**
   * The three external calls of the linguistic model (`nltk.sent_tokenize`,
   * `nltk.word_tokenize`, `nltk.pos_tag`); `None` stands for a raised exception.
   */
  datatype LinguisticModel = LinguisticModel(
    sentTokenize: string -> Option<seq<string>>,
    wordTokenize: string -> Option<seq<string>>,
    posTag: seq<string> -> Option<seq<(string, string)>>)

  /**
   * A list comprehension whose element expression may raise: either every call
   * returns and the results are collected in order, or the exception escapes.
   */
  function MapAll<A, B>(xs: seq<A>, f: A -> Option<B>): (r: Option<seq<B>>)
    ensures r.Some? <==> forall i :: 0 <= i < |xs| ==> f(xs[i]).Some?
    ensures r.Some? ==> |r.value| == |xs| && forall i :: 0 <= i < |xs| ==> r.value[i] == f(xs[i]).value
  {
    if xs == [] then Some([])
    else
      match f(xs[0])
      case None => None
      case Some(y) =>
        match MapAll(xs[1..], f)
        case None => None
        case Some(ys) => Some([y] + ys)
  }

  /** The `(word, tag)` pairs of `nltk.pos_tag`; the words it returns are always strings. */
  function AsSentence(pairs: seq<(string, string)>): Sentence {
    seq(|pairs|, i requires 0 <= i < |pairs| => Token(Str(pairs[i].0), pairs[i].1))
  }

  /** Every call of the model on `text` returns: no tagging step raises. */
  predicate TaggingSucceeds(text: string, model: LinguisticModel) {
    var sentences := model.sentTokenize(text);
    && sentences.Some?
    && forall i :: 0 <= i < |sentences.value| ==>
         && model.wordTokenize(sentences.value[i]).Some?
         && model.posTag(model.wordTokenize(sentences.value[i]).value).Some?
  }

  /** The guarded part of `ie_preprocess`: split the filtered text into sentences, tokenize and tag each. */
  function TagText(text: string, model: LinguisticModel): Tagged {
    match model.sentTokenize(text)
    case None => Sentinel
    case Some(sentences) =>
      match MapAll(sentences, model.wordTokenize)
      case None => Sentinel
      case Some(sentencesWords) =>
        match MapAll(sentencesWords, model.posTag)
        case None => Sentinel
        case Some(sentencesPos) =>
          Sentences(seq(|sentencesPos|, i requires 0 <= i < |sentencesPos| => AsSentence(sentencesPos[i])))
  }

  /**
   * Fail-soft: the sentinel comes back exactly when some call of the model raised;
   * otherwise there is one tagged sentence per sentence the splitter found, in order,
   * each the tagging of that sentence's words, and every surface form is a string.
   */
  lemma TagTextFailSoft(text: string, model: LinguisticModel)
    ensures TagText(text, model).Sentinel? <==> !TaggingSucceeds(text, model)
    ensures TagText(text, model).Sentences? ==>
              var sentences := model.sentTokenize(text).value;
              var r := TagText(text, model).sentences;
              && |r| == |sentences|
              && (forall i :: 0 <= i < |sentences| ==>
                    r[i] == AsSentence(model.posTag(model.wordTokenize(sentences[i]).value).value))
              && forall i :: 0 <= i < |r| ==> forall j :: 0 <= j < |r[i]| ==> r[i][j].surface.Str?
  {
  }

  /** `ie_preprocess(document)`: the stopword filter, then tagging, with any exception turned into the sentinel. */
  function Preprocess(document: string, stop: set<string>, model: LinguisticModel): Tagged {
    TagText(FilterStopwords(document, stop), model)
  }

  /** `get_pos(list_documents)`: one entry per document, in order, each computed from its own document. */
  method GetPos(documents: seq<string>, stop: set<string>, model: LinguisticModel)
    returns (listSentencesPos: seq<Tagged>)
    ensures |listSentencesPos| == |documents|
    ensures forall i :: 0 <= i < |documents| ==> listSentencesPos[i] == Preprocess(documents[i], stop, model)
  {
    listSentencesPos := [];
    for k := 0 to |documents|
      invariant |listSentencesPos| == k
      invariant forall i :: 0 <= i < k ==> listSentencesPos[i] == Preprocess(documents[i], stop, model)
    {
      var sentencesPos := Preprocess(documents[k], stop, model);
      listSentencesPos := listSentencesPos + [sentencesPos];
    }
  }
}
