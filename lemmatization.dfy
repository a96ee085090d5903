/**
 * `lemmatize`: every tagged token becomes one lemma (or `''`), every sentence the
 * space-joined lemmas of its tokens, every document the plain concatenation of its
 * sentence strings, and the corpus one string per input document, in order.
 */
module Lemmatization {
  import opened Wrappers
  import opened PyStrings
  import opened PosMapping
  import opened Tagging

  /**
   * `WordNetLemmatizer().lemmatize(word)` (hint `None`) or `.lemmatize(word, pos=...)`
   * (hint `Some(p)`); the result `None` stands for an `IndexError` it raised.
   */
  type Lemmatizer = (string, Option<WordNetPos>) -> Option<string>

  /** A character `\w` matches; ASCII letters, digits and the underscore. */
  predicate IsWordChar(c: char) {
    'a' <= c <= 'z' || 'A' <= c <= 'Z' || '0' <= c <= '9' || c == '_'
  }

  /** `re.fullmatch('[\w]+', w)` succeeds: `w` is non-empty and made of word characters only. */
  predicate FullMatchesWord(w: string) {
    |w| > 0 && forall i :: 0 <= i < |w| ==> IsWordChar(w[i])
  }

  /** The validity guard of the token loop: the surface form is a `str` and fully matches the word pattern. */
  predicate IsLemmatizable(surface: Surface) {
    surface.Str? && FullMatchesWord(surface.text)
  }

  /** A call of the external lemmatizer: the word and the optional `pos` hint. */
  datatype Call = Call(word: string, pos: Option<WordNetPos>)

  /** The call the loop body makes for a token, if it makes one. */
  function LemmatizerCall(token: Token): (r: Option<Call>)
    ensures r.Some? <==> IsLemmatizable(token.surface)
    ensures r.Some? ==> r.value.word == token.surface.text
    ensures r.Some? ==> (r.value.pos.Some? <==> |token.tag| > 0 && token.tag[0] in {'J', 'V', 'N', 'R'})
    ensures r.Some? ==> r.value.pos == WordNetPosOf(token.tag)
  {
    var wntag := WordNetPosOf(token.tag);
    if IsLemmatizable(token.surface) then
      if wntag.None? then Some(Call(token.surface.text, None))
      else Some(Call(token.surface.text, wntag))
    else None
  }

  /** The lemma one token contributes: `''` for no call, and for a call that raised `IndexError`. */
  function TokenLemma(token: Token, lem: Lemmatizer): string {
    match LemmatizerCall(token)
    case None => ""
    case Some(call) =>
      match lem(call.word, call.pos)
      case None => ""
      case Some(base) => base
  }

  /** The lemmas of a sentence's tokens: one slot per token, in token order. */
  function SentenceLemmas(sentence: Sentence, lem: Lemmatizer): (r: seq<string>)
    ensures |r| == |sentence|
    ensures forall i :: 0 <= i < |sentence| ==> r[i] == TokenLemma(sentence[i], lem)
  {
    if sentence == [] then []
    else [TokenLemma(sentence[0], lem)] + SentenceLemmas(sentence[1..], lem)
  }

  /** `' '.join(lemmatized_sentence)`. */
  function SentenceText(sentence: Sentence, lem: Lemmatizer): string {
    Join(SentenceLemmas(sentence, lem), " ")
  }

  /** The sentence strings of a document, one per sentence, in order. */
  function SentenceTexts(sentences: seq<Sentence>, lem: Lemmatizer): (r: seq<string>)
    ensures |r| == |sentences|
    ensures forall i :: 0 <= i < |sentences| ==> r[i] == SentenceText(sentences[i], lem)
  {
    if sentences == [] then []
    else [SentenceText(sentences[0], lem)] + SentenceTexts(sentences[1..], lem)
  }

  /** `''.join(lemmatized_document)`: the sentence strings with nothing between them. */
  function DocumentText(doc: Tagged, lem: Lemmatizer): string {
    Concat(SentenceTexts(doc.Iterated(), lem))
  }

  /**
   * The body of the token loop: map the tag, and lemmatize the word when it is a
   * string that fully matches the word pattern; an `IndexError` gives the empty lemma.
   */
  method LemmatizeToken(wordPos: Token, lem: Lemmatizer) returns (lemmatized: string)
    ensures !IsLemmatizable(wordPos.surface) ==> lemmatized == ""
    ensures IsLemmatizable(wordPos.surface) ==>
              var answer := lem(wordPos.surface.text, WordNetPosOf(wordPos.tag));
              lemmatized == if answer.Some? then answer.value else ""
    ensures lemmatized == TokenLemma(wordPos, lem)
  {
    var wntag := WordNetPosOf(wordPos.tag);
    if wordPos.surface.Str? && FullMatchesWord(wordPos.surface.text) {
      var outcome;
      if wntag.None? {
        outcome := lem(wordPos.surface.text, None);
      } else {
        outcome := lem(wordPos.surface.text, wntag);
      }
      // an IndexError raised by the lemmatizer gives the empty lemma
      lemmatized := if outcome.Some? then outcome.value else "";
    } else {
      lemmatized := "";
    }
  }

  /** `lemmatize(list_sentences_pos)`. */
  method Lemmatize(listSentencesPos: seq<Tagged>, lem: Lemmatizer) returns (lemmatizedCorpus: seq<string>)
    ensures |lemmatizedCorpus| == |listSentencesPos|
    ensures forall i :: 0 <= i < |listSentencesPos| ==>
              lemmatizedCorpus[i] == DocumentText(listSentencesPos[i], lem)
  {
    lemmatizedCorpus := [];
    for d := 0 to |listSentencesPos|
      invariant |lemmatizedCorpus| == d
      invariant forall i :: 0 <= i < d ==> lemmatizedCorpus[i] == DocumentText(listSentencesPos[i], lem)
    {
      var doc := listSentencesPos[d].Iterated();
      var lemmatizedDocument: seq<string> := [];
      for s := 0 to |doc|
        invariant |lemmatizedDocument| == s
        invariant forall i :: 0 <= i < s ==> lemmatizedDocument[i] == SentenceText(doc[i], lem)
      {
        var sent := doc[s];
        var lemmatizedSentence: seq<string> := [];
        for t := 0 to |sent|
          invariant |lemmatizedSentence| == t
          invariant forall i :: 0 <= i < t ==> lemmatizedSentence[i] == TokenLemma(sent[i], lem)
        {
          var lemmatized := LemmatizeToken(sent[t], lem);
          lemmatizedSentence := lemmatizedSentence + [lemmatized];
        }
        assert lemmatizedSentence == SentenceLemmas(sent, lem);
        lemmatizedDocument := lemmatizedDocument + [Join(lemmatizedSentence, " ")];
      }
      assert lemmatizedDocument == SentenceTexts(doc, lem);
      assert Concat(lemmatizedDocument) == DocumentText(listSentencesPos[d], lem);
      lemmatizedCorpus := lemmatizedCorpus + [Concat(lemmatizedDocument)];
    }
  }

  // ---------------------------------------------------------------------------
  // Tokens
  // ---------------------------------------------------------------------------

  /**
   * A token that is not a `str`, or does not fully match the word pattern, gets `''`
   * whatever the lemmatizer would answer: the lemmatizer is not consulted.
   */
  lemma InvalidTokenLemma(token: Token, lem1: Lemmatizer, lem2: Lemmatizer)
    requires !IsLemmatizable(token.surface)
    ensures TokenLemma(token, lem1) == ""
    ensures TokenLemma(token, lem1) == TokenLemma(token, lem2)
  {
  }

  /**
   * A valid token's lemma is the lemmatizer's answer on the word, with a `pos` hint
   * exactly when the tag maps to a WordNet category; an `IndexError` gives `''`.
   */
  lemma ValidTokenLemma(token: Token, lem: Lemmatizer)
    requires IsLemmatizable(token.surface)
    ensures var answer := lem(token.surface.text, WordNetPosOf(token.tag));
            TokenLemma(token, lem) == if answer.Some? then answer.value else ""
  {
  }

  /** The lemma depends on the lemmatizer only through the one call the token makes. */
  lemma TokenLemmaDependsOnCallOnly(token: Token, lem1: Lemmatizer, lem2: Lemmatizer)
    requires forall call :: LemmatizerCall(token) == Some(call) ==> lem1(call.word, call.pos) == lem2(call.word, call.pos)
    ensures TokenLemma(token, lem1) == TokenLemma(token, lem2)
  {
  }

  // ---------------------------------------------------------------------------
  // Sentences
  // ---------------------------------------------------------------------------

  /**
   * With lemmas free of spaces, a sentence of n >= 1 tokens has exactly n - 1 spaces,
   * and splitting it on ' ' gives back one slot per token, empty slots included.
   */
  lemma {:induction false} SentenceSlots(sentence: Sentence, lem: Lemmatizer)
    requires |sentence| >= 1
    requires forall i :: 0 <= i < |sentence| ==> ' ' !in TokenLemma(sentence[i], lem)
    ensures Count(SentenceText(sentence, lem), ' ') == |sentence| - 1
    ensures SplitOn(SentenceText(sentence, lem), ' ') == SentenceLemmas(sentence, lem)
  {
    var lemmas := SentenceLemmas(sentence, lem);
    assert forall p :: p in lemmas ==> ' ' !in p;
    JoinSeparatorCount(lemmas, ' ');
    SplitOnJoin(lemmas, ' ');
  }

  /** A trailing token that gets `''` leaves a trailing space after the lemmas before it. */
  lemma {:induction false} TrailingEmptyLemma(sentence: Sentence, lem: Lemmatizer)
    requires |sentence| >= 2
    requires TokenLemma(sentence[|sentence| - 1], lem) == ""
    ensures SentenceText(sentence, lem) == SentenceText(sentence[..|sentence| - 1], lem) + " "
  {
    var front := sentence[..|sentence| - 1];
    assert SentenceLemmas(sentence, lem) == SentenceLemmas(front, lem) + [""];
    JoinSnoc(SentenceLemmas(front, lem), "", " ");
  }

  // ---------------------------------------------------------------------------
  // Documents and the corpus
  // ---------------------------------------------------------------------------

  /** The failure sentinel and a document without sentences both give the empty string. */
  lemma EmptyDocumentText(lem: Lemmatizer)
    ensures DocumentText(Sentinel, lem) == ""
    ensures DocumentText(Sentences([]), lem) == ""
  {
  }

  /** The sentence strings of two runs of sentences, one after the other. */
  lemma SentenceTextsAppend(a: seq<Sentence>, b: seq<Sentence>, lem: Lemmatizer)
    ensures SentenceTexts(a + b, lem) == SentenceTexts(a, lem) + SentenceTexts(b, lem)
  {
    var ta, tb, tab := SentenceTexts(a, lem), SentenceTexts(b, lem), SentenceTexts(a + b, lem);
    forall i | 0 <= i < |tab| ensures tab[i] == (ta + tb)[i] {
      if i < |a| {
        assert (a + b)[i] == a[i];
      } else {
        assert (a + b)[i] == b[i - |a|];
      }
    }
  }

  /** Sentences run together: a document's string is its first part's string followed directly by the rest's. */
  lemma {:induction false} DocumentTextAppend(a: seq<Sentence>, b: seq<Sentence>, lem: Lemmatizer)
    ensures DocumentText(Sentences(a + b), lem) == DocumentText(Sentences(a), lem) + DocumentText(Sentences(b), lem)
  {
    calc {
      DocumentText(Sentences(a + b), lem);
      { assert Sentences(a + b).Iterated() == a + b; }
      Concat(SentenceTexts(a + b, lem));
      { SentenceTextsAppend(a, b, lem); }
      Concat(SentenceTexts(a, lem) + SentenceTexts(b, lem));
      { ConcatAppend(SentenceTexts(a, lem), SentenceTexts(b, lem)); }
      Concat(SentenceTexts(a, lem)) + Concat(SentenceTexts(b, lem));
    }
  }

  /** A document of one sentence is that sentence's string. */
  lemma OneSentenceDocument(sentence: Sentence, lem: Lemmatizer)
    ensures DocumentText(Sentences([sentence]), lem) == SentenceText(sentence, lem)
  {
    var texts := SentenceTexts([sentence], lem);
    assert Sentences([sentence]).Iterated() == [sentence];
    assert texts == [SentenceText(sentence, lem)];
    assert texts[1..] == [];
    assert Concat(texts) == texts[0] + Concat(texts[1..]);
    assert texts[0] + "" == texts[0];
  }

  /** A document whose preprocessing raised contributes the empty string to the corpus. */
  lemma FailedDocumentText(document: string, stop: set<string>, model: LinguisticModel, lem: Lemmatizer)
    requires !TaggingSucceeds(Stopwords.FilterStopwords(document, stop), model)
    ensures DocumentText(Preprocess(document, stop, model), lem) == ""
  {
  }

  /** The example sentence of the worked example below. */
  function ExampleSentence(): Sentence {
    [Token(Str("cats"), "NNS"), Token(Str("running"), "VBG"), Token(Str("quickly"), "RB"), Token(Str("."), ".")]
  }

  lemma ExampleLemmas(lem: Lemmatizer)
    requires lem("cats", Some(NOUN)) == Some("cat")
    requires lem("running", Some(VERB)) == Some("run")
    requires lem("quickly", Some(ADV)) == Some("quickly")
    ensures SentenceLemmas(ExampleSentence(), lem) == ["cat", "run", "quickly", ""]
  {
  }

  /**
   * The worked example: the tagged sentence "cats/NNS running/VBG quickly/RB ./." becomes
   * "cat run quickly " for any lemmatizer that lemmatizes its three words as WordNet does.
   */
  lemma ExampleDocument(lem: Lemmatizer)
    requires lem("cats", Some(NOUN)) == Some("cat")
    requires lem("running", Some(VERB)) == Some("run")
    requires lem("quickly", Some(ADV)) == Some("quickly")
    ensures DocumentText(Sentences([ExampleSentence()]), lem) == "cat run quickly "
  {
    calc {
      DocumentText(Sentences([ExampleSentence()]), lem);
      { OneSentenceDocument(ExampleSentence(), lem); }
      Join(SentenceLemmas(ExampleSentence(), lem), " ");
      { ExampleLemmas(lem); }
      Join(["cat", "run", "quickly", ""], " ");
      "cat run quickly ";
    }
  }
}
