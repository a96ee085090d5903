/**
 * The stopword filter at the head of `ie_preprocess`: split the document on
 * whitespace, drop every word that is a stopword, and join the rest with single
 * spaces. The stopword list is a parameter instead of module-level state.
 */
module Stopwords {
  import opened PyStrings

  /** The words that are not stopwords, in their original order. */
  function Keep(words: seq<string>, stop: set<string>): (r: seq<string>)
    ensures |r| <= |words|
    ensures forall w :: w in r <==> w in words && w !in stop
  {
    if words == [] then []
    else (if words[0] in stop then [] else [words[0]]) + Keep(words[1..], stop)
  }

  /** Filtering keeps the order: filtering two lists one after the other is filtering their concatenation. */
  lemma {:induction false} KeepAppend(a: seq<string>, b: seq<string>, stop: set<string>)
    ensures Keep(a + b, stop) == Keep(a, stop) + Keep(b, stop)
  {
    if a == [] {
      assert a + b == b;
    } else {
      assert (a + b)[0] == a[0];
      assert (a + b)[1..] == a[1..] + b;
      KeepAppend(a[1..], b, stop);
    }
  }

  /** A list without stopwords passes the filter unchanged. */
  lemma {:induction false} KeepNoStopwords(words: seq<string>, stop: set<string>)
    requires forall w :: w in words ==> w !in stop
    ensures Keep(words, stop) == words
  {
    if words != [] {
      assert words[0] in words;
      KeepNoStopwords(words[1..], stop);
      assert words == [words[0]] + words[1..];
    }
  }

  /** The document's whitespace-separated words that are not stopwords, joined by single spaces. */
  function FilterStopwords(document: string, stop: set<string>): string {
    Join(Keep(Split(document), stop), " ")
  }

  /** The words of the filtered document are exactly the non-stopwords of the original, in their original order. */
  lemma {:induction false} FilterStopwordsWords(document: string, stop: set<string>)
    ensures Split(FilterStopwords(document, stop)) == Keep(Split(document), stop)
    ensures forall w :: w in Split(FilterStopwords(document, stop)) <==> w in Split(document) && w !in stop
  {
    SplitJoin(Keep(Split(document), stop));
  }

  /** Filtering an already filtered document changes nothing. */
  lemma {:induction false} FilterStopwordsIdempotent(document: string, stop: set<string>)
    ensures FilterStopwords(FilterStopwords(document, stop), stop) == FilterStopwords(document, stop)
  {
    var kept := Keep(Split(document), stop);
    FilterStopwordsWords(document, stop);
    KeepNoStopwords(kept, stop);
  }

  /** The filter drops whitespace and stopwords only: with no stopword present, the non-space characters all survive. */
  lemma {:induction false} FilterStopwordsKeepsText(document: string, stop: set<string>)
    requires forall w :: w in Split(document) ==> w !in stop
    ensures NonSpace(FilterStopwords(document, stop)) == NonSpace(document)
  {
    KeepNoStopwords(Split(document), stop);
    SplitKeepsNonSpace(document);
    SplitKeepsNonSpace(FilterStopwords(document, stop));
    SplitJoin(Split(document));
  }
}
