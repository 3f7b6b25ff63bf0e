/**
 * Rule 1: a noun cluster must be introduced by an article (a, an, the) or a
 * demonstrative (this, these, that, those). The validator looks at the
 * leading token of every noun chunk and reports a violation at the first
 * chunk whose leading word is not one of these.
 */
module Rule1 {
  import opened Text
  import opened Annotation

  const AllowedDeterminers: set<string> := {"a", "an", "the", "this", "these", "that", "those"}

  /** The token the check reads for a chunk: the head of the chunk's root when
      the root is labelled `det`, and the first token of the chunk otherwise. */
  function LeadingIndex(doc: ParsedDoc, c: NounChunk): (i: nat)
    requires c in doc.nounChunks
    ensures i < |doc.tokens|
  {
    var root := doc.tokens[c.root];
    if root.dep == "det" then root.head else c.start
  }

  /** The chunk's leading word, lower-cased, is not an allowed determiner. */
  predicate Offends(doc: ParsedDoc, c: NounChunk)
    requires c in doc.nounChunks
  {
    Lower(doc.tokens[LeadingIndex(doc, c)].text) !in AllowedDeterminers
  }

  /** The loop over the noun chunks from position `k` on, stopping at the first offender. */
  predicate ValidateFrom(doc: ParsedDoc, k: nat)
    decreases |doc.nounChunks| - k
  {
    k < |doc.nounChunks| && (Offends(doc, doc.nounChunks[k]) || ValidateFrom(doc, k + 1))
  }

  /** `Rule1Validator.validate`: true means the sentence violates rule 1. */
  predicate Validate(doc: ParsedDoc) {
    ValidateFrom(doc, 0)
  }

  lemma {:induction false} ValidateFromIff(doc: ParsedDoc, k: nat)
    ensures ValidateFrom(doc, k)
        <==> exists j :: k <= j < |doc.nounChunks| && Offends(doc, doc.nounChunks[j])
    decreases |doc.nounChunks| - k
  {
    if k < |doc.nounChunks| {
      ValidateFromIff(doc, k + 1);
      if exists j :: k <= j < |doc.nounChunks| && Offends(doc, doc.nounChunks[j]) {
        var j :| k <= j < |doc.nounChunks| && Offends(doc, doc.nounChunks[j]);
        if j > k {
          assert k + 1 <= j;
        }
      }
    }
  }

  /** The early-return loop reports a violation exactly when some chunk offends. */
  lemma ValidateIffOffender(doc: ParsedDoc)
    ensures Validate(doc) <==> exists c :: c in doc.nounChunks && Offends(doc, c)
  {
    ValidateFromIff(doc, 0);
    if exists c :: c in doc.nounChunks && Offends(doc, c) {
      var c :| c in doc.nounChunks && Offends(doc, c);
      var j :| 0 <= j < |doc.nounChunks| && doc.nounChunks[j] == c;
    }
  }

  /** A sentence without noun chunks never violates rule 1. */
  lemma NoChunksNoViolation(doc: ParsedDoc)
    requires doc.nounChunks == []
    ensures !Validate(doc)
  {
  }

  /** Only which chunks there are matters, not their order or repetition. */
  lemma ChunkOrderIrrelevant(d1: ParsedDoc, d2: ParsedDoc)
    requires d1.tokens == d2.tokens
    requires forall c :: c in d1.nounChunks <==> c in d2.nounChunks
    ensures Validate(d1) == Validate(d2)
  {
    ValidateIffOffender(d1);
    ValidateIffOffender(d2);
    assert forall c :: c in d1.nounChunks ==> Offends(d1, c) == Offends(d2, c);
  }

  /** Of a chunk's tokens only two facts are read: the root's label and head, and the
      text of the leading token; any other change to the tokens leaves the verdict alone. */
  lemma RelevantTokensOnly(d1: ParsedDoc, d2: ParsedDoc)
    requires d1.nounChunks == d2.nounChunks && |d1.tokens| == |d2.tokens|
    requires forall c :: c in d1.nounChunks ==>
      d1.tokens[c.root].dep == d2.tokens[c.root].dep && d1.tokens[c.root].head == d2.tokens[c.root].head
    requires forall c :: c in d1.nounChunks ==>
      d1.tokens[LeadingIndex(d1, c)].text == d2.tokens[LeadingIndex(d1, c)].text
    ensures Validate(d1) == Validate(d2)
  {
    ValidateIffOffender(d1);
    ValidateIffOffender(d2);
    assert forall c :: c in d1.nounChunks ==> LeadingIndex(d1, c) == LeadingIndex(d2, c);
    assert forall c :: c in d1.nounChunks ==> Offends(d1, c) == Offends(d2, c);
  }

  /** The determiner test ignores letter case: re-casing token texts never changes the verdict. */
  lemma CaseInsensitive(d1: ParsedDoc, d2: ParsedDoc)
    requires d1.nounChunks == d2.nounChunks && |d1.tokens| == |d2.tokens|
    requires forall i :: 0 <= i < |d1.tokens| ==>
      d1.tokens[i].(text := "") == d2.tokens[i].(text := "")
      && SameUpToCase(d1.tokens[i].text, d2.tokens[i].text)
    ensures Validate(d1) == Validate(d2)
  {
    ValidateIffOffender(d1);
    ValidateIffOffender(d2);
    forall c | c in d1.nounChunks ensures Offends(d1, c) == Offends(d2, c) {
      var r := c.root;
      assert d1.tokens[r].(text := "").dep == d1.tokens[r].dep;
      assert d2.tokens[r].(text := "").head == d2.tokens[r].head;
      var i := LeadingIndex(d1, c);
      assert i == LeadingIndex(d2, c);
      SameUpToCaseLower(d1.tokens[i].text, d2.tokens[i].text);
    }
  }

  /** "The", "THE" and "the" are all accepted. */
  lemma CapitalisedArticlesAllowed()
    ensures Lower("The") in AllowedDeterminers
    ensures Lower("THE") in AllowedDeterminers
    ensures Lower("This") in AllowedDeterminers
  {
    assert Lower("The") == "the";
    assert Lower("THE") == "the";
    assert Lower("This") == "this";
  }
}
