# Rule checker for procedural writing — a Dafny model

The system checks English procedural text (maintenance manuals and similar) against five
writing rules. It splits a text into sentences and flags each sentence for every rule it
breaks:

1. a noun cluster opens with an article or a demonstrative;
2. the active voice is used;
3. one instruction per sentence, unless the actions are simultaneous (a language model is
   asked when the parse alone cannot decide);
4. instructions are in the imperative;
5. a sentence has at most 20 words.

A web front end shows the result. In text mode the sentences are concatenated, and a sentence
with a violation is followed by the numbers of the violated rules, joined by commas, in
`<sup>` tags. In file mode a Word document is built with one paragraph per sentence. A
sentence with a violation is followed by a run holding the same comma-joined numbers;
inside that run only the digits are set in superscript, not the commas. Both modes show
"No violations." when no flag is set.

The model covers:

- the five validators (`Rule1` … `Rule5`);
- the sentence splitter (`SentenceSplitter`);
- the orchestrating class (`RuleChecking.RuleChecker`);
- the front end's annotation and rendering (`App`).

The test files' expectations are stated in `Scenarios` over hand-built parses.

The three outside services are parameters:

- the tagger and dependency parser: `nlp: string -> ParsedDoc`, a token list with tags,
  part of speech, dependency labels, heads and noun chunks (module `Annotation`);
- the sentence-boundary model: `segment: string -> seq<string>`;
- the language model: `ask: string -> OracleReply`, which gives either a reply text or a
  failure.

The string helpers the source takes from Python live in `Text`: `lower`, `upper`,
`strip`, `isspace`, `isdigit`, `in`, `",".join` and `str(int)`. `Text` also defines
`SplitOn` (`split` at one character) and `ParseDecimal` (`int(str)`), which the source does
not use. They are reference inverses of `Join` and `DecimalString`, there so that
`App.FootnoteRoundTrip` can state that a footnote reads back as its rule numbers.

Each verdict is a boolean, true meaning "violates". The checker's result holds one
`CheckResult(sentence, violations)` per sentence, with `violations[k-1]` the verdict of
rule k.

## Model

| member | source | states |
|---|---|---|
| Rule1.Offends | src/validators/rule1.py:24-25 | a chunk offends when the text of its leading token, lower-cased, is not one of a/an/the/this/these/that/those |
| Rule1.Validate | src/validators/rule1.py:20-28 | the verdict: the scan over the noun chunks in order, true at the first offending chunk, false when none offends |
| Rule1.LeadingIndex | src/validators/rule1.py:24 | the token read for a chunk (the root's head when the root is `det`, else the chunk's first token) is a valid token index |
| Rule1.ValidateFrom | src/validators/rule1.py:22-28 | the early-return loop over the noun chunks from chunk k on: true at the first offending chunk, false past the last chunk |
| Rule1.ValidateFromIff | src/validators/rule1.py:22-28 | the early-return loop from chunk k on reports a violation iff some chunk at or after k is an offender |
| Rule1.ValidateIffOffender | src/validators/rule1.py:22-28 | a sentence violates rule 1 iff some noun chunk's leading word, lower-cased, is not one of a/an/the/this/these/that/those |
| Rule1.NoChunksNoViolation | src/validators/rule1.py:22-28 | a parse without noun chunks never violates |
| Rule1.ChunkOrderIrrelevant | src/validators/rule1.py:22-26 | the verdict depends only on the set of chunks, not on their order or repetition |
| Rule1.RelevantTokensOnly | src/validators/rule1.py:24-25 | only the chunk root's label and head and the leading token's text are read; changing anything else keeps the verdict |
| Rule1.CaseInsensitive | src/validators/rule1.py:25 | re-casing token texts never changes the verdict |
| Rule1.CapitalisedArticlesAllowed | src/validators/rule1.py:25 | "The", "THE" and "This" are accepted |
| Annotation.WellFormed | src/validators/rule1.py:22-24 | what the parser guarantees of every parse it returns; `ParsedDoc` is the type of parses satisfying it: every head index is a token of the doc, and every noun chunk is a non-empty span of tokens holding its root |
| Annotation.Children | src/validators/rule2.py:24 | `token.children`: the indices of the other tokens whose head is the token, in document order |
| Annotation.IsRootVerb | src/validators/rule3.py:34 | a token labelled ROOT whose part of speech is VERB |
| Annotation.ChildWithDepFrom | src/validators/rule2.py:24-25 | the scan `for child in children: if child.dep_ == dep`, true at the first child carrying the label, false when the list runs out |
| Annotation.HasChildWithDep | src/validators/rule4.py:33-35 | that scan over the children of token i |
| Annotation.HasChildWithDepIff | src/validators/rule2.py:24-25 | scanning a token's children for a label succeeds iff some token whose head is that token carries the label |
| Rule2.PassiveAt | src/validators/rule2.py:23-25 | token i is tagged VBN and one of its children is labelled `auxpass` |
| Rule2.Validate | src/validators/rule2.py:19-28 | the verdict: the scan over the tokens in order, true at the first passive participle, false when there is none |
| Rule2.ValidateFrom | src/validators/rule2.py:22-28 | the early-return loop over the tokens from token k on: true at the first passive participle, false past the last token |
| Rule2.ValidateFromIff | src/validators/rule2.py:22-28 | the loop from token k on reports a violation iff some token at or after k is a VBN with an `auxpass` child |
| Rule2.ValidateIffPassivePair | src/validators/rule2.py:22-28 | a violation iff there is a VBN token i and a child j of i labelled `auxpass` |
| Rule2.NoParticipleNoViolation | src/validators/rule2.py:23 | without a VBN token there is no violation |
| Rule2.AuxpassElsewhereIgnored | src/validators/rule2.py:23-25 | `auxpass` tokens whose heads are not VBN never cause a violation |
| Rule3.HasSimultaneityKeyword | src/validators/rule3.py:30 | the lower-cased sentence contains one of "at the same time", "simultaneously", "while" |
| Rule3.AreActionsSimultaneous | src/validators/rule3.py:57-62 | the reply text, stripped and upper-cased, is "YES"; a failed call is false |
| Rule3.Validate | src/validators/rule3.py:27-42 | the verdict: false with a keyword, false with fewer than two root verbs, else the negation of the model's YES |
| Rule3.RootVerbCount | src/validators/rule3.py:34 | the number of ROOT/VERB tokens is at most the number of tokens |
| Rule3.RootVerbCountPositive | src/validators/rule3.py:34 | the root-verb count is positive iff some token is a ROOT/VERB |
| Rule3.KeywordAnywhere | src/validators/rule3.py:30-31 | a simultaneity keyword, in any letter case, anywhere in the sentence prevents a violation whatever the parse and the model |
| Rule3.FewRootVerbsNoViolation | src/validators/rule3.py:34-36 | with fewer than two root verbs there is no violation, for any two models alike |
| Rule3.ModelDecides | src/validators/rule3.py:39-42 | past the two local checks the verdict is the negation of the model's YES |
| Rule3.FailureFlags | src/validators/rule3.py:57-62 | a failed model call counts as "not simultaneous", so a sentence that reaches it is flagged |
| Rule3.YesInAnyCase | src/validators/rule3.py:59 | a reply counts as YES iff its stripped text is "yes" in any letter case |
| Rule3.PaddedYesAccepted | src/validators/rule3.py:59 | " yes\n" counts as YES |
| Rule3.CapitalYesAccepted | src/validators/rule3.py:59 | "Yes" counts as YES |
| Rule3.OtherAnswersRejected | src/validators/rule3.py:59-62 | "NO", "YES." and a failure do not count as YES |
| Rule3.SingleRootCount | src/validators/rule3.py:34 | a token list with at most one ROOT label has at most one root verb |
| Rule3.SingleRootNoViolation | src/validators/rule3.py:33-36 | a parse with at most one ROOT label never violates rule 3, whatever the model answers |
| Rule4.GetRootVerb | src/validators/rule4.py:39-44 | `_get_root_verb`: the index of the first ROOT/VERB token in document order, or None |
| Rule4.NotImperative | src/validators/rule4.py:29-35 | the verb is not tagged VB, or one of its children is labelled `nsubj` |
| Rule4.Validate | src/validators/rule4.py:22-37 | the verdict: false without a root verb or when its text is empty (token truthiness), else whether it is not imperative |
| Rule4.RootVerbFrom | src/validators/rule4.py:39-44 | the search returns the first ROOT/VERB token at or after k, and None iff there is none |
| Rule4.FirstRootVerbDecides | src/validators/rule4.py:22-37 | with i the first root verb: violation iff its text is non-empty and it is not VB or has an `nsubj` child |
| Rule4.NoRootVerbNoViolation | src/validators/rule4.py:25-26 | without a ROOT/VERB token there is no violation |
| Rule4.ViolationHasRootVerb | src/validators/rule4.py:23-26 | a violation implies a ROOT/VERB token exists |
| Rule4.NonBaseFormViolates | src/validators/rule4.py:29-30 | a first root verb not tagged VB violates whatever its children |
| Rule4.BaseFormNeedsNoSubject | src/validators/rule4.py:31-37 | a first root verb tagged VB violates iff it has an `nsubj` child |
| Rule5.IsWord | src/validators/rule5.py:22 | a token that is neither punctuation nor space |
| Rule5.Validate | src/validators/rule5.py:19-24 | the verdict: the word count exceeds 20 |
| Rule5.WordCount | src/validators/rule5.py:20-23 | the word count is at most the number of tokens |
| Rule5.WordCountConcat | src/validators/rule5.py:20-23 | the count is additive over concatenation |
| Rule5.AllWordsCount | src/validators/rule5.py:20-23 | a token list of words counts its own length |
| Rule5.NonWordIgnored | src/validators/rule5.py:22 | inserting a punctuation or space token changes neither the count nor the verdict |
| Rule5.AppendWordMonotone | src/validators/rule5.py:20-24 | appending a word adds one and can only turn a pass into a violation |
| Rule5.Boundary | src/validators/rule5.py:24 | exactly 20 words pass, 21 words violate |
| Text.IsSpace | src/preprocessors/sentence_splitter.py:24 | the whitespace set of `str.strip` and `str.isspace` on ASCII: the codes 9-13 (tab to carriage return), 28-31 (the separators 0x1C-0x1F) and 32 (space) |
| Text.IsDigit | src/app.py:72 | `char.isdigit()` on ASCII: the characters '0' to '9' |
| Text.Lower | src/validators/rule3.py:30 | `str.lower` on ASCII: each upper-case letter mapped to its lower-case letter, the length kept |
| Text.Upper | src/validators/rule3.py:59 | `str.upper` on ASCII: each lower-case letter mapped to its upper-case letter, the length kept |
| Text.Strip | src/preprocessors/sentence_splitter.py:24 | `str.strip`: the leading and then the trailing whitespace removed |
| Text.Contains | src/validators/rule3.py:30 | `needle in haystack`: the needle is a prefix of the haystack or is contained in its tail |
| Text.Join | src/app.py:47 | `sep.join(parts)`: the parts in order with the separator between consecutive parts |
| Text.StripSound | src/preprocessors/sentence_splitter.py:24 | `strip` leaves a string with no outer whitespace obtained by removing only outer whitespace |
| Text.StripUnique | src/preprocessors/sentence_splitter.py:24 | any trimmed outer trim of s equals `Strip(s)`, so `Strip` is fully characterised |
| Text.StripBlank | src/preprocessors/sentence_splitter.py:24 | stripping gives the empty string iff the input is all whitespace |
| Text.StripIdempotent | src/preprocessors/sentence_splitter.py:24 | stripping twice is stripping once |
| Text.StripPadded | src/validators/rule3.py:59 | whitespace padding around a trimmed string is undone by strip |
| Text.ContainsAt | src/validators/rule3.py:30 | substring containment holds iff the needle occurs at some index |
| Text.ContainsInfix | src/validators/rule3.py:30 | a string contains every one of its infixes |
| Text.LowerConcat | src/validators/rule3.py:30 | lower-casing distributes over concatenation |
| Text.JoinChars | src/app.py:47 | every character of a join comes from a part or the separator |
| Text.SplitJoin | src/app.py:47 | splitting a join at its one-character separator gives the parts back when no part holds it |
| Text.DecimalString | src/app.py:43 | `str(n)` is a non-empty run of digits |
| Text.ParseDecimalString | src/app.py:43 | parsing `str(n)` gives n back |
| SentenceSplitter.SplitSentences | src/preprocessors/sentence_splitter.py:23-24 | one sentence per segment, none dropped |
| SentenceSplitter.SplitSentencesSound | src/preprocessors/sentence_splitter.py:24 | each sentence is its segment with exactly the outer whitespace removed; it is empty iff the segment is blank |
| SentenceSplitter.SplitSentencesStable | src/preprocessors/sentence_splitter.py:24 | stripping a split sentence again changes nothing |
| RuleChecking.Verdicts | src/rule_checker.py:40-55 | the five flags for a sentence, each validator applied to the same parse, rule 1 first |
| RuleChecking.Tabulate | src/rule_checker.py:57-60 | one result per sentence, in order, each holding the sentence and its flags |
| RuleChecking.RuleChecker.Expected | src/rule_checker.py:36-62 | the specified outcome of the check: the error when there is a sentence and no rule-3 validator, otherwise the tabulated results |
| RuleChecking.RuleChecker.constructor | src/rule_checker.py:16-24 | the rule-3 validator exists iff the key is given and non-empty, and it asks the given model |
| RuleChecking.RuleChecker.CheckSentence | src/rule_checker.py:40-55 | the collected flags are the five verdicts on the sentence, rule 1 first |
| RuleChecking.RuleChecker.CheckRules | src/rule_checker.py:36-62 | the loop's outcome is the specified one: an error when there is a sentence and no rule-3 validator, else one result per sentence |
| RuleChecking.RuleChecker.ExpectedFailsIff | src/rule_checker.py:37-49 | the check fails iff there is no rule-3 validator and at least one sentence |
| RuleChecking.RuleChecker.ExpectedShape | src/rule_checker.py:36-62 | with a rule-3 validator, one result per sentence: result i holds sentence i verbatim and its five verdicts |
| RuleChecking.RuleChecker.NoSentencesNoResults | src/rule_checker.py:36-39 | a text without sentences gives an empty result list, key or no key |
| RuleChecking.RuleChecker.KeyMeansNoFailure | src/rule_checker.py:22 | with an API key the check never fails |
| RuleChecking.VerdictSlots | src/rule_checker.py:40-55 | flag k-1 is rule k's verdict, and there are five flags |
| RuleChecking.TabulateStep | src/rule_checker.py:57-60 | one more sentence appends its result at the end |
| RuleChecking.TabulateSlots | src/rule_checker.py:57-60 | the results line up with the sentences: same length, entry i for sentence i |
| RuleChecking.Rule3ViolationHasRootVerb | src/validators/rule3.py:33-36 | a rule-3 violation implies the parse has a root verb, so rule 4 examines one |
| App.TrueSlots | src/app.py:40-43 | the 1-based positions of the set flags, in `enumerate` order |
| App.Labels | src/app.py:43 | `str` of each slot number, in order, one label per slot |
| App.AnnotationOf | src/app.py:37-43 | the `annotation` list: `str` of each of those positions |
| App.Footnote | src/app.py:47 | the footnote text: the annotation joined by commas |
| App.TotalViolations | src/app.py:40-42 | the number of set flags over all results, the final `total_violations` |
| App.DocxParagraph | src/app.py:36-49 | the paragraph for one result: the sentence, followed by the footnote run only when the annotation is non-empty |
| App.SentenceMarkup | src/app.py:125-134 | the text appended for one result: the sentence, then the footnote in `<sup>` tags and a space, or a single space |
| App.RenderedText | src/app.py:122-134 | the text-mode output: the markups of the results concatenated in order |
| App.CountTrue | src/app.py:40-42 | the violation count of a result is at most its number of flags |
| App.TrueSlotsCount | src/app.py:40-43 | one footnote number per true flag |
| App.TrueSlotsSound | src/app.py:40-43 | every footnote number k lies between 1 and the number of flags, and flag k-1 is set |
| App.TrueSlotsComplete | src/app.py:40-43 | every set flag i contributes the number i+1 |
| App.TrueSlotsAscending | src/app.py:40-43 | the footnote numbers are strictly ascending |
| App.TrueSlotsSpec | src/app.py:40-43 | the footnote numbers are exactly the 1-based positions of the set flags, ascending, one per set flag |
| App.AnnotationEmptyIff | src/app.py:46 | the annotation is empty iff no flag is set iff the count is zero |
| App.LabelsDigits | src/app.py:43 | each label is `str` of its number and consists of digits |
| App.FootnoteChars | src/app.py:47 | a footnote consists of digits and commas only |
| App.FootnoteRoundTrip | src/app.py:47 | splitting a footnote at the commas and parsing each piece gives the violated rule numbers back |
| App.AnnotationStep | src/app.py:40-43 | one more flag appends its number to the annotation and adds one to the count exactly when set |
| App.Annotate | src/app.py:40-43 | the loop builds the annotation of the flags and adds their count to the running total |
| App.Superscripted | src/app.py:66-76 | one element per character |
| App.AddSuperscript | src/app.py:66-76 | one element per character, in order, superscripted exactly when the character is a digit |
| App.FootnoteRun | src/app.py:47-49 | a footnote's run spells the footnote with digits raised and commas not |
| App.CountTrueZero | src/app.py:40-42 | a result adds nothing to the total iff none of its flags is set |
| App.TotalZeroIffClean | src/app.py:32-42 | the total is zero iff no flag of any result is set |
| App.DocxParagraphs | src/app.py:35-36 | one paragraph per result |
| App.DocxParagraphsStep | src/app.py:35-49 | one more result appends its paragraph |
| App.TotalStep | src/app.py:40-42 | one more result adds its count to the total |
| App.DocxParagraphsSlots | src/app.py:35-49 | paragraph i holds sentence i, and carries a run iff the sentence violates a rule, that run being its footnote |
| App.WriteToDocx | src/app.py:29-55 | the loop yields the specified paragraphs and the total number of violations |
| App.Markups | src/app.py:124-134 | one markup piece per result |
| App.ConcatAppend | src/app.py:124-134 | concatenating pieces is additive over sequence append |
| App.RenderedConcat | src/app.py:124-134 | the output for two runs of results is the first's output followed by the second's |
| App.RenderedStep | src/app.py:124-134 | one more result appends its markup to the output |
| App.MarkupShape | src/app.py:131-134 | a violating sentence is followed by its footnote in `<sup>` tags and a space, a clean sentence by a single space |
| App.MarkupAppend | src/app.py:125-134 | the loop body's appends add exactly the sentence's markup |
| App.RenderText | src/app.py:122-134 | the loop yields the specified output string and the total number of violations |
| App.TextMode | src/app.py:117-139 | blank text shows nothing; a crash of the check is surfaced; "No violations." iff the total is zero, else the annotated text |
| App.FileMode | src/app.py:145-154 | the same, with the annotated document offered instead of the text |
| Scenarios.Rule1Outcomes | test/test_rule1.py:7-19 | "Turn the shaft assembly." passes; "Turn shaft assembly." and "Assembly the shaft." violate |
| Scenarios.Rule1MoreOutcomes | test/test_rule1.py:13-16 | "This data module explains the process." passes; "John manual is missing." violates |
| Scenarios.Rule2Outcomes | test/test_rule2.py:7-16 | the passive with agent and "The door is closed." violate; the active sentence passes |
| Scenarios.Rule2PassiveWithoutAgent | test/test_rule2.py:13 | "The report was submitted." violates |
| Scenarios.Rule2GerundIsActive | test/test_rule2.py:19 | "Connect the circuits using a relay." passes |
| Scenarios.Rule3SingleRoot | test/test_rule3.py:9 | the one-root parse of "Disengage the lock and lift the handle carefully." passes whatever the model answers |
| Scenarios.Rule3TwoRoots | test/test_rule3.py:11 | a two-root parse of a keyword-free sentence is flagged when the model answers NO |
| Scenarios.Rule4Imperative | test/test_rule4.py:7 | "Continue the test." passes |
| Scenarios.Rule4Coordinated | test/test_rule4.py:8 | "Remove oil and grease." passes |
| Scenarios.Rule4Negated | test/test_rule4.py:9 | "Do not touch the screen." passes |
| Scenarios.Rule4Passive | test/test_rule4.py:12 | "The test can be continued." violates |
| Scenarios.Rule4ExplicitSubject | test/test_rule4.py:15 | "You must press the button." violates |
| Scenarios.Rule4Gerund | test/test_rule4.py:17 | "Removing the panel..." violates |
| Rule5.FewTokensPass | src/validators/rule5.py:20-24 | a parse of at most 20 tokens passes, since the word count never exceeds the token count |
| Scenarios.Rule5Hyphenated | test/test_rule5.py:18 | "State-of-the-art device—developed in 2020—supports 10+ users." passes even with every hyphen, dash and plus split off (18 tokens) |
| Scenarios.Rule5Short | test/test_rule5.py:7 | "This is a short sentence." passes |
| Scenarios.Rule5Outcomes | test/test_rule5.py:10-15 | 21 words violate, 20 words pass |
| Scenarios.TrueSlotsExample | src/app.py:40-43 | flags for rules 1 and 3 give the numbers 1 and 3 |
| Scenarios.FootnoteExample | src/app.py:47 | flags for rules 1 and 3 give the footnote "1,3" |
| Scenarios.FootnoteRunExample | src/app.py:66-76 | the run of "1,3" raises the digits and not the comma |
| Scenarios.MarkupExample | src/app.py:131-134 | a rule-1 violation renders as `sentence<sup>1</sup> `, a clean sentence as `sentence ` |

## Left out

- The Streamlit page is not modelled: its layout, title, sidebar, buttons and widgets. `App.TextMode` and `App.FileMode` start from the moment "Check Rules" is pressed, with the text as an argument.
- Saving the Word document (`doc.save`) is not modelled, nor its XML elements. A document is the list of paragraphs with their runs of glyphs. The base64 download link is not modelled either: `App.Display.Download` carries the paragraphs.
- File upload and UTF-8 decoding are left out: the uploaded text is an argument.
- Loading environment variables is left out: the API key is an `Option<string>` argument.
- Loading and downloading the spaCy model is left out, as is its tagger and parser. The parse is the parameter `nlp`.
- The sentencizer's boundary detection is the parameter `segment`.
- The Gemini client is left out: configuration, the model name, the prompt text and the network call. It is the parameter `ask`, whose reply is either a text or `ApiError`. Because `ask` is a function, the same sentence always gets the same reply. The live model may answer two identical calls differently, so a sentence that appears twice in a text could get two different rule-3 flags. `RuleChecking.RuleChecker.ExpectedShape` states result i as `Verdicts` of sentence i, which relies on this determinism.
- The error message printed on a model failure is left out: it is output only.
- Text handling is ASCII only. `lower`, `upper`, `strip`, `isspace` and `isdigit` act on ASCII as Python's do. Unicode case mapping and Unicode whitespace are not modelled.
- Rule 3's conjunction set ("and", "or", "then") is stored by the validator but never read, so it is absent. The simultaneity keywords are the three in the code.
- Rule 4 uses the truthiness of a spaCy token, which is false when the token's text is empty. `Rule4.Validate` follows the code: an empty-text root verb gives no violation.
- Without an API key, `check_rules` raises on the first sentence when it calls the missing rule-3 validator. This is modelled as `Err(Rule3Missing)`. Rules 1 and 2 have already been computed for that sentence, but the result is not affected because they are pure. With no sentences the result is an empty list.
- The source's app file does not parse as written, and the model follows the evident intent:
  - the colon after `def main()` is missing;
  - the f-string on its line 132 reuses its own quote character, which is valid only from Python 3.12 on.
- The test files construct the validators without the `nlp` argument the constructors require, and rule 3's test depends on the live model. `Scenarios` states each test's expectation over a hand-built parse of the test sentence instead.
- Scenarios.Rule3TwoRoots: it does not check the literal "Set the switch and release the button." against the keyword list. The sentence is an argument, and its lack of a keyword is a hypothesis. The cost of the proof over the literal outweighed its value.
- Scenarios.Rule3TwoRoots: it assumes a parse with two ROOT tokens. A dependency tree for one sentence has a single root. `Rule3.SingleRootNoViolation` shows that, under any parse with at most one ROOT label, rule 3 never flags a sentence. So `test/test_rule3.py:11`'s expected violation can only arise from a parse that labels two tokens ROOT. Nothing here shows what the tagger returns for that sentence, so this is not claimed as a defect of the source.
