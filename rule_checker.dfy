/**
 * The rule checker: split the text into sentences, run the five validators
 * on each sentence in turn and collect one result per sentence, holding the
 * sentence and its five violation flags (rule 1 first, rule 5 last).
 */
module RuleChecking {
  import opened Wrappers
  import opened Annotation
  import SentenceSplitter
  import Rule1
  import Rule2
  import Rule3
  import Rule4
  import Rule5

  /** One entry of the checker's output: the sentence and `violations`, where
      `violations[k - 1]` is true when the sentence violates rule k. */
  datatype CheckResult = CheckResult(sentence: string, violations: seq<bool>)

  /** The one way the check can fail: without an API key there is no rule-3
      validator, and calling `validate` on it raises. */
  datatype CheckError = Rule3Missing

  datatype Outcome = Ok(results: seq<CheckResult>) | Err(error: CheckError)

  /** The five flags the checker records for a sentence, rule 1 first: every
      validator runs on the same parse. */
  function Verdicts(nlp: string -> ParsedDoc, rule3: Rule3.Validator, sentence: string): seq<bool> {
    var doc := nlp(sentence);
    [Rule1.Validate(doc), Rule2.Validate(doc), Rule3.Validate(rule3, sentence, doc),
     Rule4.Validate(doc), Rule5.Validate(doc)]
  }

  /** Flag k - 1 of a sentence is rule k's verdict on it. */
  lemma VerdictSlots(nlp: string -> ParsedDoc, rule3: Rule3.Validator, sentence: string)
    ensures var v := Verdicts(nlp, rule3, sentence); var doc := nlp(sentence);
      && |v| == 5
      && v[0] == Rule1.Validate(doc) && v[1] == Rule2.Validate(doc)
      && v[2] == Rule3.Validate(rule3, sentence, doc)
      && v[3] == Rule4.Validate(doc) && v[4] == Rule5.Validate(doc)
  {
  }

  /** One result per sentence, in order, each holding the flags `flags` gives it. */
  function Tabulate(sentences: seq<string>, flags: string -> seq<bool>): seq<CheckResult> {
    if sentences == [] then []
    else Tabulate(sentences[..|sentences| - 1], flags)
           + [CheckResult(sentences[|sentences| - 1], flags(sentences[|sentences| - 1]))]
  }

  /** One more sentence adds its result at the end. */
  lemma TabulateStep(sentences: seq<string>, flags: string -> seq<bool>, n: nat)
    requires n < |sentences|
    ensures Tabulate(sentences[..n + 1], flags)
      == Tabulate(sentences[..n], flags) + [CheckResult(sentences[n], flags(sentences[n]))]
  {
    assert sentences[..n + 1][..n] == sentences[..n];
  }

  /** Entry `i` holds sentence `i` verbatim and its flags: nothing is dropped, duplicated
      or reordered. */
  lemma {:induction false} TabulateSlots(sentences: seq<string>, flags: string -> seq<bool>)
    ensures |Tabulate(sentences, flags)| == |sentences|
    ensures forall i :: 0 <= i < |sentences| ==>
      Tabulate(sentences, flags)[i] == CheckResult(sentences[i], flags(sentences[i]))
    decreases |sentences|
  {
    if sentences != [] {
      var m := |sentences| - 1;
      var init := sentences[..m];
      TabulateSlots(init, flags);
      forall i | 0 <= i < m
        ensures Tabulate(sentences, flags)[i] == CheckResult(sentences[i], flags(sentences[i]))
      {
        assert init[i] == sentences[i];
      }
    }
  }

  class RuleChecker {
    /** The tagger and parser the validators share. */
    const nlp: string -> ParsedDoc
    /** The sentence-boundary model of the splitter. */
    const segment: string -> seq<string>
    /** The rule-3 validator, present only when an API key was given. */
    const rule3: Option<Rule3.Validator>

    /** `RuleChecker.__init__`: the rule-3 validator exists exactly when the key is
        given and non-empty (an empty string is falsy). */
    constructor (geminiApiKey: Option<string>, nlp: string -> ParsedDoc,
                 segment: string -> seq<string>, gemini: string -> Rule3.OracleReply)
      ensures this.nlp == nlp && this.segment == segment
      ensures rule3.Some? <==> geminiApiKey.Some? && geminiApiKey.value != ""
      ensures rule3.Some? ==> rule3.value.ask == gemini
    {
      this.nlp := nlp;
      this.segment := segment;
      this.rule3 := if geminiApiKey.Some? && geminiApiKey.value != "" then Some(Rule3.Validator(gemini)) else None;
    }

    /** The checker's flags for one sentence. */
    function Flags(): string -> seq<bool>
      requires rule3.Some?
    {
      var v := rule3.value;
      s => Verdicts(nlp, v, s)
    }

    /** What `check_rules` gives for a text: the error when there is a sentence to
        check and no rule-3 validator, else one result per sentence. */
    function Expected(text: string): Outcome {
      var sentences := SentenceSplitter.SplitSentences(text, segment);
      if rule3.None? then (if |sentences| > 0 then Err(Rule3Missing) else Ok([]))
      else Ok(Tabulate(sentences, Flags()))
    }

    /** The body of `check_rules`' loop for one sentence: the five flags, appended in
        rule order. */
    method CheckSentence(sentence: string) returns (violations: seq<bool>)
      requires rule3.Some?
      ensures violations == Verdicts(nlp, rule3.value, sentence)
    {
      var doc := nlp(sentence);
      violations := [];
      violations := violations + [Rule1.Validate(doc)];
      violations := violations + [Rule2.Validate(doc)];
      violations := violations + [Rule3.Validate(rule3.value, sentence, doc)];
      violations := violations + [Rule4.Validate(doc)];
      violations := violations + [Rule5.Validate(doc)];
    }

    /** `check_rules`: the loop over the split sentences. Rules 1 and 2 are pure, so
        failing before them or after them on a sentence is the same. */
    method CheckRules(text: string) returns (out: Outcome)
      ensures out == Expected(text)
    {
      var results: seq<CheckResult> := [];
      var sentences := SentenceSplitter.SplitSentences(text, segment);
      for n := 0 to |sentences|
        invariant n > 0 ==> rule3.Some?
        invariant rule3.Some? ==> results == Tabulate(sentences[..n], Flags())
        invariant rule3.None? ==> results == []
      {
        if rule3.None? {
          return Err(Rule3Missing);
        }
        var violations := CheckSentence(sentences[n]);
        assert violations == Flags()(sentences[n]);
        results := results + [CheckResult(sentences[n], violations)];
        TabulateStep(sentences, Flags(), n);
      }
      assert sentences[..|sentences|] == sentences;
      out := Ok(results);
    }

    /** The check fails exactly when there is a sentence to check and no rule-3
        validator. */
    lemma ExpectedFailsIff(text: string)
      ensures Expected(text).Err? <==>
        rule3.None? && |SentenceSplitter.SplitSentences(text, segment)| > 0
    {
    }

    /** With a rule-3 validator the check gives one result per sentence, in order: result
        i holds sentence i verbatim and its five flags. */
    lemma ExpectedShape(text: string)
      requires rule3.Some?
      ensures var sentences := SentenceSplitter.SplitSentences(text, segment);
        && Expected(text).Ok? && |Expected(text).results| == |sentences|
        && forall i :: 0 <= i < |sentences| ==>
             Expected(text).results[i] == CheckResult(sentences[i], Verdicts(nlp, rule3.value, sentences[i]))
    {
      TabulateSlots(SentenceSplitter.SplitSentences(text, segment), Flags());
    }

    /** A text without sentences gives no results, with or without an API key. */
    lemma NoSentencesNoResults(text: string)
      requires segment(text) == []
      ensures Expected(text) == Ok([])
    {
    }

    /** With an API key the check never fails. */
    lemma KeyMeansNoFailure(text: string)
      requires rule3.Some?
      ensures Expected(text).Ok?
    {
    }
  }

  /** A rule-3 violation needs two root verbs, so rule 4 then always finds a root verb. */
  lemma Rule3ViolationHasRootVerb(v: Rule3.Validator, sentence: string, doc: ParsedDoc)
    requires Rule3.Validate(v, sentence, doc)
    ensures Rule4.GetRootVerb(doc).Some?
  {
    Rule3.RootVerbCountPositive(doc.tokens);
  }
}
