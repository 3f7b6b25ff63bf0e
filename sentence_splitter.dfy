/**
 * The sentence splitter: the text is cut into sentences by the tagger's
 * sentence-boundary model, and each sentence is stripped of surrounding
 * whitespace, nothing else. The boundary model is an argument (`segment`).
 */
module SentenceSplitter {
  import opened Text

  /** `split_sentences`: one sentence per segment, in order, none dropped. */
  function SplitSentences(text: string, segment: string -> seq<string>): (r: seq<string>)
    ensures |r| == |segment(text)|
  {
    var segments := segment(text);
    seq(|segments|, i requires 0 <= i < |segments| => Strip(segments[i]))
  }

  /** Each sentence is its segment with the outer whitespace removed and nothing else
      changed, and a segment of only whitespace becomes the empty string. */
  lemma SplitSentencesSound(text: string, segment: string -> seq<string>)
    ensures var r := SplitSentences(text, segment);
      forall i :: 0 <= i < |r| ==>
        && Trimmed(r[i]) && IsOuterTrim(segment(text)[i], r[i])
        && (r[i] == [] <==> OnlySpaces(segment(text)[i]))
  {
    var r := SplitSentences(text, segment);
    forall i | 0 <= i < |r|
      ensures Trimmed(r[i]) && IsOuterTrim(segment(text)[i], r[i])
      ensures r[i] == [] <==> OnlySpaces(segment(text)[i])
    {
      StripSound(segment(text)[i]);
      StripBlank(segment(text)[i]);
    }
  }

  /** Splitting is stable: stripping a split sentence again changes nothing. */
  lemma SplitSentencesStable(text: string, segment: string -> seq<string>)
    ensures forall s :: s in SplitSentences(text, segment) ==> Strip(s) == s
  {
    forall s | s in SplitSentences(text, segment) ensures Strip(s) == s {
      var r := SplitSentences(text, segment);
      var i :| 0 <= i < |r| && r[i] == s;
      StripIdempotent(segment(text)[i]);
    }
  }
}
