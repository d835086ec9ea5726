/** The tokenizer: a text becomes the set of its lowercased words, where a word
    is a maximal run of word characters (`re.findall(r'\b\w+\b', text.lower())`
    collected into a set). */
module Tokenizer {
  import opened Text

  /** A well-formed index term: a non-empty run of word characters with no
      upper-case letter. */
  ghost predicate IsTerm(w: string) {
    |w| > 0 && forall k :: 0 <= k < |w| ==> IsWordChar(w[k]) && !IsUpper(w[k])
  }

  /** w is a whole word of the lowercased text. */
  ghost predicate IsWordOf(text: string, w: string) {
    exists a, b :: IsMaximalRun(Lower(text), IsWordChar, a, b) && Lower(text)[a..b] == w
  }

  function Tokenize(text: string): (terms: set<string>)
    ensures forall w :: w in terms ==> IsTerm(w)
    ensures text == [] ==> terms == {}
  {
    var words := Runs(Lower(text), IsWordChar);
    assert forall c :: c in Lower(text) ==> !IsUpper(c);
    set w | w in words
  }

  /** The terms of a text are exactly its whole words, lowercased: nothing is
      lost, and nothing that is only part of a word is added. */
  lemma TokenizeFindsWholeWords(text: string, w: string)
    ensures w in Tokenize(text) <==> IsWordOf(text, w)
  {
    RunsFromAreMaximalRuns(Lower(text), IsWordChar, 0, w);
  }

  /** Tokenizing ignores case: a text and its lowercase form have the same terms. */
  lemma TokenizeIgnoresCase(text: string)
    ensures Tokenize(Lower(text)) == Tokenize(text)
  {
    LowerIsIdempotent(text);
  }
}
