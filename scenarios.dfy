/**
 * The expected outcomes of the repository's tests, over hand-built parses of
 * the test sentences (the parses a tagger of the usual English tag set would
 * give), and two worked examples of the front end's annotation.
 */
module Scenarios {
  import opened Annotation
  import Text
  import Rule1
  import Rule2
  import Rule3
  import Rule4
  import Rule5
  import RuleChecking
  import App

  /** A word token. */
  function W(text: string, tag: string, pos: string, dep: string, head: nat): Token {
    Token(text, tag, pos, dep, head, false, false)
  }

  /** A punctuation token. */
  function P(text: string, head: nat): Token {
    Token(text, ".", "PUNCT", "punct", head, true, false)
  }

  // ---------------------------------------------------------------------
  // rule 1

  /** "Turn the shaft assembly.": the chunk "the shaft assembly" starts with "the". */
  function TurnTheShaftAssembly(): ParsedDoc {
    Doc([W("Turn", "VB", "VERB", "ROOT", 0), W("the", "DT", "DET", "det", 3),
         W("shaft", "NN", "NOUN", "compound", 3), W("assembly", "NN", "NOUN", "dobj", 0), P(".", 0)],
        [NounChunk(1, 4, 3)])
  }

  /** "Turn shaft assembly.": the chunk "shaft assembly" has no determiner. */
  function TurnShaftAssembly(): ParsedDoc {
    Doc([W("Turn", "VB", "VERB", "ROOT", 0), W("shaft", "NN", "NOUN", "compound", 2),
         W("assembly", "NN", "NOUN", "dobj", 0), P(".", 0)],
        [NounChunk(1, 3, 2)])
  }

  /** "Assembly the shaft.": the first chunk is the bare noun "Assembly". */
  function AssemblyTheShaft(): ParsedDoc {
    Doc([W("Assembly", "NN", "NOUN", "ROOT", 0), W("the", "DT", "DET", "det", 2),
         W("shaft", "NN", "NOUN", "appos", 0), P(".", 0)],
        [NounChunk(0, 1, 0), NounChunk(1, 3, 2)])
  }

  /** "This data module explains the process.": both chunks open with a determiner. */
  function ThisDataModule(): ParsedDoc {
    Doc([W("This", "DT", "DET", "det", 2), W("data", "NN", "NOUN", "compound", 2),
         W("module", "NN", "NOUN", "nsubj", 3), W("explains", "VBZ", "VERB", "ROOT", 3),
         W("the", "DT", "DET", "det", 5), W("process", "NN", "NOUN", "dobj", 3), P(".", 3)],
        [NounChunk(0, 3, 2), NounChunk(4, 6, 5)])
  }

  /** "John manual is missing.": the chunk "John manual" opens with a proper noun. */
  function JohnManual(): ParsedDoc {
    Doc([W("John", "NNP", "PROPN", "compound", 1), W("manual", "NN", "NOUN", "nsubj", 3),
         W("is", "VBZ", "AUX", "aux", 3), W("missing", "VBG", "VERB", "ROOT", 3), P(".", 3)],
        [NounChunk(0, 2, 1)])
  }

  lemma Rule1Outcomes()
    ensures !Rule1.Validate(TurnTheShaftAssembly())
    ensures Rule1.Validate(TurnShaftAssembly())
    ensures Rule1.Validate(AssemblyTheShaft())
  {
    assert Text.Lower("the") == "the";
    assert Text.Lower("shaft") == "shaft";
    assert Text.Lower("Assembly") == "assembly";
    var d := TurnTheShaftAssembly();
    assert Rule1.LeadingIndex(d, d.nounChunks[0]) == 1;
  }

  lemma Rule1MoreOutcomes()
    ensures !Rule1.Validate(ThisDataModule())
    ensures Rule1.Validate(JohnManual())
  {
    assert Text.Lower("This") == "this";
    assert Text.Lower("the") == "the";
    assert Text.Lower("John") == "john";
  }

  // ---------------------------------------------------------------------
  // rule 2

  /** "The safety procedures are supplied by the manufacturer.": "are" is the passive
      auxiliary of the participle "supplied". */
  function SuppliedByTheManufacturer(): ParsedDoc {
    Doc([W("The", "DT", "DET", "det", 2), W("safety", "NN", "NOUN", "compound", 2),
         W("procedures", "NNS", "NOUN", "nsubjpass", 4), W("are", "VBP", "AUX", "auxpass", 4),
         W("supplied", "VBN", "VERB", "ROOT", 4), W("by", "IN", "ADP", "agent", 4),
         W("the", "DT", "DET", "det", 7), W("manufacturer", "NN", "NOUN", "pobj", 5), P(".", 4)],
        [])
  }

  /** "The manufacturer supplies the safety procedures.": no participle. */
  function ManufacturerSupplies(): ParsedDoc {
    Doc([W("The", "DT", "DET", "det", 1), W("manufacturer", "NN", "NOUN", "nsubj", 2),
         W("supplies", "VBZ", "VERB", "ROOT", 2), W("the", "DT", "DET", "det", 5),
         W("safety", "NN", "NOUN", "compound", 5), W("procedures", "NNS", "NOUN", "dobj", 2), P(".", 2)],
        [])
  }

  /** "The door is closed.": an adjectival participle parsed with a passive auxiliary. */
  function TheDoorIsClosed(): ParsedDoc {
    Doc([W("The", "DT", "DET", "det", 1), W("door", "NN", "NOUN", "nsubjpass", 3),
         W("is", "VBZ", "AUX", "auxpass", 3), W("closed", "VBN", "VERB", "ROOT", 3), P(".", 3)],
        [])
  }

  /** "The report was submitted.": a passive without an agent. */
  function ReportWasSubmitted(): ParsedDoc {
    Doc([W("The", "DT", "DET", "det", 1), W("report", "NN", "NOUN", "nsubjpass", 3),
         W("was", "VBD", "AUX", "auxpass", 3), W("submitted", "VBN", "VERB", "ROOT", 3), P(".", 3)],
        [])
  }

  /** "Connect the circuits using a relay.": an imperative with a gerund, no participle. */
  function ConnectTheCircuits(): ParsedDoc {
    Doc([W("Connect", "VB", "VERB", "ROOT", 0), W("the", "DT", "DET", "det", 2),
         W("circuits", "NNS", "NOUN", "dobj", 0), W("using", "VBG", "VERB", "advcl", 0),
         W("a", "DT", "DET", "det", 5), W("relay", "NN", "NOUN", "dobj", 3), P(".", 0)],
        [])
  }

  lemma Rule2PassiveWithoutAgent()
    ensures Rule2.Validate(ReportWasSubmitted())
  {
    Rule2.ValidateIffPassivePair(ReportWasSubmitted());
    assert IsChild(ReportWasSubmitted(), 3, 2);
  }

  lemma Rule2GerundIsActive()
    ensures !Rule2.Validate(ConnectTheCircuits())
  {
    Rule2.NoParticipleNoViolation(ConnectTheCircuits());
  }

  lemma Rule2Outcomes()
    ensures Rule2.Validate(SuppliedByTheManufacturer())
    ensures !Rule2.Validate(ManufacturerSupplies())
    ensures Rule2.Validate(TheDoorIsClosed())
  {
    Rule2.ValidateIffPassivePair(SuppliedByTheManufacturer());
    assert IsChild(SuppliedByTheManufacturer(), 4, 3);
    Rule2.NoParticipleNoViolation(ManufacturerSupplies());
    Rule2.ValidateIffPassivePair(TheDoorIsClosed());
    assert IsChild(TheDoorIsClosed(), 3, 2);
  }

  // ---------------------------------------------------------------------
  // rule 3

  /** "Disengage the lock and lift the handle carefully.": one root, "lift" is its conjunct. */
  function DisengageAndLift(): ParsedDoc {
    Doc([W("Disengage", "VB", "VERB", "ROOT", 0), W("the", "DT", "DET", "det", 2),
         W("lock", "NN", "NOUN", "dobj", 0), W("and", "CC", "CCONJ", "cc", 0),
         W("lift", "VB", "VERB", "conj", 0), W("the", "DT", "DET", "det", 6),
         W("handle", "NN", "NOUN", "dobj", 4), W("carefully", "RB", "ADV", "advmod", 4), P(".", 4)],
        [])
  }

  /** "Set the switch and release the button." with both verbs parsed as roots. */
  function SetAndRelease(): ParsedDoc {
    Doc([W("Set", "VB", "VERB", "ROOT", 0), W("the", "DT", "DET", "det", 2),
         W("switch", "NN", "NOUN", "dobj", 0), W("and", "CC", "CCONJ", "cc", 0),
         W("release", "VB", "VERB", "ROOT", 4), W("the", "DT", "DET", "det", 6),
         W("button", "NN", "NOUN", "dobj", 4), P(".", 4)],
        [])
  }

  /** "Disengage the lock and lift the handle carefully." passes whatever the model
      would answer: there is one root verb. */
  lemma Rule3SingleRoot(v: Rule3.Validator, sentence: string)
    ensures !Rule3.Validate(v, sentence, DisengageAndLift())
  {
    assert Rule3.RootVerbCount(DisengageAndLift().tokens) == 1;
  }

  /** "Set the switch and release the button." with two root verbs is flagged when the
      model answers NO (the sentence names no simultaneity keyword). */
  lemma Rule3TwoRoots(v: Rule3.Validator, sentence: string)
    requires !Rule3.HasSimultaneityKeyword(sentence)
    requires v.ask(sentence) == Rule3.Reply("NO")
    ensures Rule3.Validate(v, sentence, SetAndRelease())
  {
    assert Rule3.RootVerbCount(SetAndRelease().tokens) == 2;
    Rule3.OtherAnswersRejected();
  }

  // ---------------------------------------------------------------------
  // rule 4

  /** "Continue the test.": a base-form root without a subject. */
  function ContinueTheTest(): ParsedDoc {
    Doc([W("Continue", "VB", "VERB", "ROOT", 0), W("the", "DT", "DET", "det", 2),
         W("test", "NN", "NOUN", "dobj", 0), P(".", 0)],
        [])
  }

  /** "You must press the button.": a base-form root with the subject "You". */
  function YouMustPress(): ParsedDoc {
    Doc([W("You", "PRP", "PRON", "nsubj", 2), W("must", "MD", "AUX", "aux", 2),
         W("press", "VB", "VERB", "ROOT", 2), W("the", "DT", "DET", "det", 4),
         W("button", "NN", "NOUN", "dobj", 2), P(".", 2)],
        [])
  }

  /** "Removing the panel...": a gerund as root. */
  function RemovingThePanel(): ParsedDoc {
    Doc([W("Removing", "VBG", "VERB", "ROOT", 0), W("the", "DT", "DET", "det", 2),
         W("panel", "NN", "NOUN", "dobj", 0), P("...", 0)],
        [])
  }

  /** "Do not touch the screen.": a base-form root with an auxiliary and a negation. */
  function DoNotTouch(): ParsedDoc {
    Doc([W("Do", "VB", "AUX", "aux", 2), W("not", "RB", "PART", "neg", 2),
         W("touch", "VB", "VERB", "ROOT", 2), W("the", "DT", "DET", "det", 4),
         W("screen", "NN", "NOUN", "dobj", 2), P(".", 2)],
        [])
  }

  /** "The test can be continued.": a passive participle as root. */
  function TestCanBeContinued(): ParsedDoc {
    Doc([W("The", "DT", "DET", "det", 1), W("test", "NN", "NOUN", "nsubjpass", 4),
         W("can", "MD", "AUX", "aux", 4), W("be", "VB", "AUX", "auxpass", 4),
         W("continued", "VBN", "VERB", "ROOT", 4), P(".", 4)],
        [])
  }

  lemma Rule4Imperative()
    ensures !Rule4.Validate(ContinueTheTest())
  {
    Rule4.BaseFormNeedsNoSubject(ContinueTheTest(), 0);
  }

  /** "Remove oil and grease.": a base-form root with a coordinated object. */
  function RemoveOilAndGrease(): ParsedDoc {
    Doc([W("Remove", "VB", "VERB", "ROOT", 0), W("oil", "NN", "NOUN", "dobj", 0),
         W("and", "CC", "CCONJ", "cc", 1), W("grease", "NN", "NOUN", "conj", 1), P(".", 0)],
        [])
  }

  lemma Rule4Coordinated()
    ensures !Rule4.Validate(RemoveOilAndGrease())
  {
    Rule4.BaseFormNeedsNoSubject(RemoveOilAndGrease(), 0);
  }

  lemma Rule4Negated()
    ensures !Rule4.Validate(DoNotTouch())
  {
    var d := DoNotTouch();
    assert !IsRootVerb(d.tokens[0]) && !IsRootVerb(d.tokens[1]);
    Rule4.BaseFormNeedsNoSubject(d, 2);
  }

  lemma Rule4Passive()
    ensures Rule4.Validate(TestCanBeContinued())
  {
    var d := TestCanBeContinued();
    assert forall j :: 0 <= j < 4 ==> !IsRootVerb(d.tokens[j]);
    Rule4.NonBaseFormViolates(d, 4);
  }

  lemma Rule4ExplicitSubject()
    ensures Rule4.Validate(YouMustPress())
  {
    var d := YouMustPress();
    assert !IsRootVerb(d.tokens[0]) && !IsRootVerb(d.tokens[1]);
    Rule4.BaseFormNeedsNoSubject(d, 2);
    assert IsChild(d, 2, 0);
  }

  lemma Rule4Gerund()
    ensures Rule4.Validate(RemovingThePanel())
  {
    Rule4.NonBaseFormViolates(RemovingThePanel(), 0);
  }

  // ---------------------------------------------------------------------
  // rule 5

  /** `" ".join(["word"] * n)`: n word tokens hanging off the first. */
  function Words(n: nat): ParsedDoc {
    Doc(seq(n, i => W("word", "NN", "NOUN", "dep", 0)), [])
  }

  /** "State-of-the-art device—developed in 2020—supports 10+ users." with every hyphen,
      dash and plus split off: 18 tokens, the most any tokenizer can make of it. */
  function StateOfTheArt(): ParsedDoc {
    Doc([W("State", "NN", "NOUN", "compound", 6), Token("-", "HYPH", "PUNCT", "punct", 0, true, false),
         W("of", "IN", "ADP", "prep", 0), Token("-", "HYPH", "PUNCT", "punct", 2, true, false),
         W("the", "DT", "DET", "det", 6), Token("-", "HYPH", "PUNCT", "punct", 4, true, false),
         W("art", "NN", "NOUN", "amod", 7), W("device", "NN", "NOUN", "nsubj", 13),
         Token("\U{2014}", ":", "PUNCT", "punct", 9, true, false), W("developed", "VBN", "VERB", "acl", 7),
         W("in", "IN", "ADP", "prep", 9), W("2020", "CD", "NUM", "pobj", 10),
         Token("\U{2014}", ":", "PUNCT", "punct", 9, true, false), W("supports", "VBZ", "VERB", "ROOT", 13),
         W("10", "CD", "NUM", "nummod", 16), W("+", "SYM", "SYM", "cc", 14),
         W("users", "NNS", "NOUN", "dobj", 13), P(".", 13)],
        [])
  }

  /** The hyphenated sentence passes: at most 18 tokens can never make more than 20 words. */
  lemma Rule5Hyphenated()
    ensures !Rule5.Validate(StateOfTheArt())
  {
    Rule5.FewTokensPass(StateOfTheArt());
  }

  /** "This is a short sentence.": five words and a full stop. */
  function ShortSentence(): ParsedDoc {
    Doc([W("This", "DT", "PRON", "nsubj", 1), W("is", "VBZ", "AUX", "ROOT", 1),
         W("a", "DT", "DET", "det", 4), W("short", "JJ", "ADJ", "amod", 4),
         W("sentence", "NN", "NOUN", "attr", 1), P(".", 1)],
        [])
  }

  lemma Rule5Short()
    ensures !Rule5.Validate(ShortSentence())
  {
  }

  lemma Rule5Outcomes()
    ensures !Rule5.Validate(Words(20))
    ensures Rule5.Validate(Words(21))
  {
    Rule5.Boundary(Words(20), Words(21));
  }

  // ---------------------------------------------------------------------
  // the front end

  /** Rules 1 and 3 violated: the slots are 1 and 3. */
  lemma TrueSlotsExample()
    ensures App.TrueSlots([true, false, true, false, false]) == [1, 3]
  {
    assert [true, false][..1] == [true];
    assert App.TrueSlots([true, false]) == [1];
    assert [true, false, true][..2] == [true, false];
    assert App.TrueSlots([true, false, true]) == [1, 3];
    assert [true, false, true, false][..3] == [true, false, true];
    assert App.TrueSlots([true, false, true, false]) == [1, 3];
    assert [true, false, true, false, false][..4] == [true, false, true, false];
  }

  /** A sentence violating rules 1 and 3 is footnoted "1,3". */
  lemma FootnoteExample()
    ensures App.Footnote([true, false, true, false, false]) == "1,3"
  {
    TrueSlotsExample();
    assert [1, 3][..1] == [1];
    assert App.Labels([1, 3]) == ["1", "3"];
  }

  /** The footnote run of "1,3": the digits are raised and the comma is not. */
  lemma FootnoteRunExample()
    ensures App.Superscripted("1,3")
      == [App.Glyph('1', true), App.Glyph(',', false), App.Glyph('3', true)]
  {
  }

  /** A sentence violating rule 1 only is rendered with the footnote "1" in superscript tags. */
  lemma MarkupExample(sentence: string)
    ensures App.SentenceMarkup(RuleChecking.CheckResult(sentence, [true, false, false, false, false]))
      == sentence + "<sup>1</sup> "
    ensures App.SentenceMarkup(RuleChecking.CheckResult(sentence, [false, false, false, false, false]))
      == sentence + " "
  {
    var v := [true, false, false, false, false];
    App.TrueSlotsSpec(v);
    assert v[..4] == [true, false, false, false];
    assert v[..4][..3] == [true, false, false];
    assert v[..4][..3][..2] == [true, false];
    assert [true, false][..1] == [true];
    assert App.TrueSlots([true, false]) == [1];
    assert App.TrueSlots(v) == [1];
    assert App.Labels([1]) == ["1"];
    App.MarkupShape(RuleChecking.CheckResult(sentence, v));
    assert sentence + "<sup>" + "1" + "</sup> " == sentence + "<sup>1</sup> ";
    App.MarkupShape(RuleChecking.CheckResult(sentence, [false, false, false, false, false]));
  }
}
