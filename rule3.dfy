/**
 * Rule 3: one instruction per sentence, unless the actions happen at the same
 * time. A sentence that names simultaneity explicitly passes at once; a
 * sentence with fewer than two ROOT/VERB tokens passes too. Otherwise a
 * language model is asked whether the actions are simultaneous, and the
 * sentence violates the rule unless the answer is YES. The model is an
 * argument here (`ask`), answering either with a text or with a failure.
 * The conjunction set {"and", "or", "then"} that the validator also stores
 * is never read, so it is not part of the model.
 */
module Rule3 {
  import opened Text
  import opened Annotation

  const SimultaneousKeywords: set<string> := {"at the same time", "simultaneously", "while"}

  /** `any(keyword in sentence.lower() for keyword in self.simultaneous_keywords)`. */
  predicate HasSimultaneityKeyword(sentence: string) {
    exists k | k in SimultaneousKeywords :: Contains(Lower(sentence), k)
  }

  /** `len([token for token in doc if token.dep_ == "ROOT" and token.pos_ == "VERB"])`. */
  function RootVerbCount(tokens: seq<Token>): (n: nat)
    ensures n <= |tokens|
  {
    if tokens == [] then 0
    else (if IsRootVerb(tokens[0]) then 1 else 0) + RootVerbCount(tokens[1..])
  }

  /** There is a root verb exactly when the count is positive. */
  lemma {:induction false} RootVerbCountPositive(tokens: seq<Token>)
    ensures RootVerbCount(tokens) > 0 <==> exists i :: 0 <= i < |tokens| && IsRootVerb(tokens[i])
  {
    if tokens != [] {
      RootVerbCountPositive(tokens[1..]);
      if exists i :: 0 <= i < |tokens| && IsRootVerb(tokens[i]) {
        var i :| 0 <= i < |tokens| && IsRootVerb(tokens[i]);
        if i > 0 {
          assert IsRootVerb(tokens[1..][i - 1]);
        }
      }
      if RootVerbCount(tokens[1..]) > 0 {
        var i :| 0 <= i < |tokens[1..]| && IsRootVerb(tokens[1..][i]);
        assert IsRootVerb(tokens[i + 1]);
      }
    }
  }

  /** What the language-model call gives back: the response text, or a failure
      (any exception raised by the client or while reading the response). */
  datatype OracleReply = Reply(text: string) | ApiError

  /** `_are_actions_simultaneous` after the call: YES after strip and upper-casing;
      a failure counts as "not simultaneous". */
  predicate AreActionsSimultaneous(reply: OracleReply) {
    match reply
    case Reply(t) => Upper(Strip(t)) == "YES"
    case ApiError => false
  }

  /** A configured validator: the model it asks about a sentence. */
  datatype Validator = Validator(ask: string -> OracleReply)

  /** `Rule3Validator.validate`: true means the sentence violates rule 3. */
  predicate Validate(v: Validator, sentence: string, doc: ParsedDoc) {
    if HasSimultaneityKeyword(sentence) then false
    else if RootVerbCount(doc.tokens) < 2 then false
    else !AreActionsSimultaneous(v.ask(sentence))
  }

  /** A keyword, in any letter case, anywhere in the sentence prevents a violation,
      whatever the parse and whatever the model would answer. */
  lemma KeywordAnywhere(v: Validator, pre: string, m: string, post: string, doc: ParsedDoc)
    requires Lower(m) in SimultaneousKeywords
    ensures !Validate(v, pre + m + post, doc)
  {
    LowerConcat(pre + m, post);
    LowerConcat(pre, m);
    ContainsInfix(Lower(pre), Lower(m), Lower(post));
    assert Contains(Lower(pre + m + post), Lower(m));
  }

  /** With fewer than two root verbs there is no violation, and the model is not
      consulted: any two models give the same verdict. */
  lemma FewRootVerbsNoViolation(v1: Validator, v2: Validator, sentence: string, doc: ParsedDoc)
    requires RootVerbCount(doc.tokens) < 2
    ensures !Validate(v1, sentence, doc) && !Validate(v2, sentence, doc)
  {
  }

  /** A token list with at most one ROOT label has at most one root verb. */
  lemma {:induction false} SingleRootCount(tokens: seq<Token>)
    requires forall i, j :: 0 <= i < j < |tokens| && tokens[i].dep == "ROOT" ==> tokens[j].dep != "ROOT"
    ensures RootVerbCount(tokens) <= 1
  {
    if tokens != [] {
      var rest := tokens[1..];
      forall i, j | 0 <= i < j < |rest| && rest[i].dep == "ROOT" ensures rest[j].dep != "ROOT" {
        assert rest[i] == tokens[i + 1] && rest[j] == tokens[j + 1];
      }
      SingleRootCount(rest);
      if IsRootVerb(tokens[0]) {
        RootVerbCountPositive(rest);
        forall j | 0 <= j < |rest| ensures !IsRootVerb(rest[j]) {
          assert rest[j] == tokens[j + 1];
        }
      }
    }
  }

  /** A parse with at most one ROOT label, the shape of a dependency tree for one
      sentence, never violates rule 3, whatever the model would answer. */
  lemma SingleRootNoViolation(v: Validator, sentence: string, doc: ParsedDoc)
    requires forall i, j :: 0 <= i < j < |doc.tokens| && doc.tokens[i].dep == "ROOT" ==>
      doc.tokens[j].dep != "ROOT"
    ensures !Validate(v, sentence, doc)
  {
    SingleRootCount(doc.tokens);
  }

  /** Past the two local checks, the verdict is the negation of the model's answer. */
  lemma ModelDecides(v: Validator, sentence: string, doc: ParsedDoc)
    requires !HasSimultaneityKeyword(sentence) && RootVerbCount(doc.tokens) >= 2
    ensures Validate(v, sentence, doc) <==> !AreActionsSimultaneous(v.ask(sentence))
  {
  }

  /** When the model call fails, a sentence that reaches it is flagged. */
  lemma FailureFlags(v: Validator, sentence: string, doc: ParsedDoc)
    requires !HasSimultaneityKeyword(sentence) && RootVerbCount(doc.tokens) >= 2
    requires v.ask(sentence) == ApiError
    ensures Validate(v, sentence, doc)
  {
  }

  /** The answer counts as YES exactly when, stripped, it is the word "yes" in any letter case. */
  lemma YesInAnyCase(t: string)
    ensures AreActionsSimultaneous(Reply(t)) <==> Lower(Strip(t)) == "yes"
  {
    var s := Strip(t);
    if |s| == 3 {
      forall i | 0 <= i < 3 ensures (UpperChar(s[i]) == "YES"[i]) <==> (LowerChar(s[i]) == "yes"[i]) {
      }
      if Upper(s) == "YES" {
        assert Lower(s)[0] == "yes"[0] && Lower(s)[1] == "yes"[1] && Lower(s)[2] == "yes"[2];
      }
      if Lower(s) == "yes" {
        assert Upper(s)[0] == "YES"[0] && Upper(s)[1] == "YES"[1] && Upper(s)[2] == "YES"[2];
      }
    }
  }

  /** Surrounding whitespace is ignored: " yes\n" counts as YES. */
  lemma PaddedYesAccepted()
    ensures AreActionsSimultaneous(Reply(" yes\n"))
  {
    StripYesLine();
    UpperYes();
  }

  /** Upper-casing "yes" gives "YES". */
  lemma UpperYes()
    ensures Upper("yes") == "YES"
  {
  }

  /** Stripping " yes\n" removes the leading space and the trailing line feed. */
  lemma StripYesLine()
    ensures Strip(" yes\n") == "yes"
  {
    assert LStrip(" yes\n") == "yes\n";
    assert RStrip("yes\n") == "yes";
  }

  /** Letter case is ignored: "Yes" counts as YES. */
  lemma CapitalYesAccepted()
    ensures AreActionsSimultaneous(Reply("Yes"))
  {
    StripPadded("", "Yes", "");
    assert "" + "Yes" + "" == "Yes";
    assert Upper("Yes") == "YES";
  }

  /** Any other answer, or a failure, counts as "not simultaneous". */
  lemma OtherAnswersRejected()
    ensures !AreActionsSimultaneous(Reply("NO"))
    ensures !AreActionsSimultaneous(Reply("YES."))
    ensures !AreActionsSimultaneous(ApiError)
  {
    StripPadded("", "NO", "");
    assert "" + "NO" + "" == "NO";
    StripPadded("", "YES.", "");
    assert "" + "YES." + "" == "YES.";
  }
}
