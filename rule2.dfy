/**
 * Rule 2: procedural writing uses the active voice. The validator flags a
 * sentence as soon as it finds a past participle (tag VBN) with a child
 * labelled `auxpass` (a passive auxiliary). The test is purely structural.
 */
module Rule2 {
  import opened Annotation

  /** Token `i` is a past participle that has a passive auxiliary among its children. */
  predicate PassiveAt(doc: ParsedDoc, i: nat)
    requires i < |doc.tokens|
  {
    doc.tokens[i].tag == "VBN" && HasChildWithDep(doc, i, "auxpass")
  }

  /** The outer loop over the tokens from position `k` on, stopping at the first hit. */
  predicate ValidateFrom(doc: ParsedDoc, k: nat)
    decreases |doc.tokens| - k
  {
    k < |doc.tokens| && (PassiveAt(doc, k) || ValidateFrom(doc, k + 1))
  }

  /** `Rule2Validator.validate`: true means the sentence violates rule 2. */
  predicate Validate(doc: ParsedDoc) {
    ValidateFrom(doc, 0)
  }

  lemma {:induction false} ValidateFromIff(doc: ParsedDoc, k: nat)
    ensures ValidateFrom(doc, k) <==> exists i :: k <= i < |doc.tokens| && PassiveAt(doc, i)
    decreases |doc.tokens| - k
  {
    if k < |doc.tokens| {
      ValidateFromIff(doc, k + 1);
      if exists i :: k <= i < |doc.tokens| && PassiveAt(doc, i) {
        var i :| k <= i < |doc.tokens| && PassiveAt(doc, i);
        if i > k {
          assert k + 1 <= i;
        }
      }
    }
  }

  /** A violation exactly when some VBN token has a child labelled `auxpass`. */
  lemma ValidateIffPassivePair(doc: ParsedDoc)
    ensures Validate(doc) <==>
      exists i: nat, j: nat :: i < |doc.tokens| && doc.tokens[i].tag == "VBN"
        && IsChild(doc, i, j) && doc.tokens[j].dep == "auxpass"
  {
    ValidateFromIff(doc, 0);
    forall i | 0 <= i < |doc.tokens|
      ensures PassiveAt(doc, i) <==> (doc.tokens[i].tag == "VBN"
        && exists j: nat :: IsChild(doc, i, j) && doc.tokens[j].dep == "auxpass")
    {
      HasChildWithDepIff(doc, i, "auxpass");
    }
  }

  /** Without a past participle there is no violation, the empty doc included. */
  lemma NoParticipleNoViolation(doc: ParsedDoc)
    requires forall i :: 0 <= i < |doc.tokens| ==> doc.tokens[i].tag != "VBN"
    ensures !Validate(doc)
  {
    ValidateFromIff(doc, 0);
  }

  /** Passive auxiliaries attached to tokens that are not past participles are ignored. */
  lemma AuxpassElsewhereIgnored(doc: ParsedDoc)
    requires forall j :: 0 <= j < |doc.tokens| && doc.tokens[j].dep == "auxpass" ==>
      doc.tokens[doc.tokens[j].head].tag != "VBN"
    ensures !Validate(doc)
  {
    ValidateIffPassivePair(doc);
  }
}
