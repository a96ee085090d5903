/** `get_wordnet_pos`: from a Penn Treebank tag to a WordNet part of speech. */
module PosMapping {
  import opened Wrappers

  /** The four WordNet categories the lemmatizer accepts as a hint. */
  datatype WordNetPos = ADJ | VERB | NOUN | ADV

  /** Python's `s.startswith(prefix)`. */
  predicate StartsWith(s: string, prefix: string) {
    prefix <= s
  }

  /**
   * The tag's first character decides, case-sensitively and in the order J, V, N, R;
   * every other tag, the empty one included, maps to `None`.
   */
  function WordNetPosOf(tag: string): (r: Option<WordNetPos>)
    ensures r == Some(ADJ) <==> |tag| > 0 && tag[0] == 'J'
    ensures r == Some(VERB) <==> |tag| > 0 && tag[0] == 'V'
    ensures r == Some(NOUN) <==> |tag| > 0 && tag[0] == 'N'
    ensures r == Some(ADV) <==> |tag| > 0 && tag[0] == 'R'
    ensures r == None <==> |tag| == 0 || tag[0] !in {'J', 'V', 'N', 'R'}
  {
    if StartsWith(tag, "J") then Some(ADJ)
    else if StartsWith(tag, "V") then Some(VERB)
    else if StartsWith(tag, "N") then Some(NOUN)
    else if StartsWith(tag, "R") then Some(ADV)
    else None
  }

  /** Only the first character of a tag matters. */
  lemma FirstCharacterDecides(a: string, b: string)
    requires |a| > 0 && |b| > 0 && a[0] == b[0]
    ensures WordNetPosOf(a) == WordNetPosOf(b)
  {
  }

  /** The mapping on typical Penn Treebank tags, and on the empty tag. */
  lemma WordNetPosExamples()
    ensures WordNetPosOf("JJ") == Some(ADJ)
    ensures WordNetPosOf("VBZ") == Some(VERB)
    ensures WordNetPosOf("NN") == Some(NOUN)
    ensures WordNetPosOf("RB") == Some(ADV)
    ensures WordNetPosOf("") == None
    ensures WordNetPosOf("DT") == None
    ensures WordNetPosOf("jj") == None
  {
  }
}
