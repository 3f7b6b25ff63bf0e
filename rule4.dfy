/**
 * Rule 4: instructions are written in the imperative. The validator finds the
 * first token that is the ROOT of the parse and a VERB; a sentence without
 * one is not judged. Otherwise the sentence violates the rule when that verb
 * is not in base form (tag VB), or when it has an explicit nominal subject.
 */
module Rule4 {
  import opened Wrappers
  import opened Annotation

  /** The search of `_get_root_verb` from position `k` on. */
  function RootVerbFrom(doc: ParsedDoc, k: nat): (r: Option<nat>)
    decreases |doc.tokens| - k
    ensures r.Some? ==> k <= r.value < |doc.tokens| && IsRootVerb(doc.tokens[r.value])
    ensures r.Some? ==> forall j :: k <= j < r.value ==> !IsRootVerb(doc.tokens[j])
    ensures r.None? <==> forall j :: k <= j < |doc.tokens| ==> !IsRootVerb(doc.tokens[j])
  {
    if k >= |doc.tokens| then None
    else if IsRootVerb(doc.tokens[k]) then Some(k)
    else RootVerbFrom(doc, k + 1)
  }

  /** `_get_root_verb`: the index of the first ROOT/VERB token in doc order, if any. */
  function GetRootVerb(doc: ParsedDoc): Option<nat> {
    RootVerbFrom(doc, 0)
  }

  /** The verb at `i` is not a bare imperative: not in base form, or with an explicit subject. */
  predicate NotImperative(doc: ParsedDoc, i: nat)
    requires i < |doc.tokens|
  {
    doc.tokens[i].tag != "VB" || HasChildWithDep(doc, i, "nsubj")
  }

  /** `Rule4Validator.validate`: true means the sentence violates rule 4. A token is
      falsy in Python when its text is empty, so `if not root` also stops there. */
  predicate Validate(doc: ParsedDoc) {
    match GetRootVerb(doc)
    case None => false
    case Some(i) => |doc.tokens[i].text| > 0 && NotImperative(doc, i)
  }

  /** Only the first root verb is examined: its tag and its subject children decide. */
  lemma FirstRootVerbDecides(doc: ParsedDoc, i: nat)
    requires i < |doc.tokens| && IsRootVerb(doc.tokens[i])
    requires forall j :: 0 <= j < i ==> !IsRootVerb(doc.tokens[j])
    ensures Validate(doc) <==> (|doc.tokens[i].text| > 0
      && (doc.tokens[i].tag != "VB"
          || exists j: nat :: IsChild(doc, i, j) && doc.tokens[j].dep == "nsubj"))
  {
    var r := GetRootVerb(doc);
    assert r.Some?;
    assert r.value == i;
    HasChildWithDepIff(doc, i, "nsubj");
  }

  /** Without a ROOT/VERB token there is no violation. */
  lemma NoRootVerbNoViolation(doc: ParsedDoc)
    requires forall j :: 0 <= j < |doc.tokens| ==> !IsRootVerb(doc.tokens[j])
    ensures !Validate(doc)
  {
  }

  /** A violation implies that a ROOT/VERB token exists. */
  lemma ViolationHasRootVerb(doc: ParsedDoc)
    requires Validate(doc)
    ensures exists j :: 0 <= j < |doc.tokens| && IsRootVerb(doc.tokens[j])
  {
    var i := GetRootVerb(doc).value;
    assert IsRootVerb(doc.tokens[i]);
  }

  /** A root verb whose tag is not VB violates the rule whatever its children are. */
  lemma NonBaseFormViolates(doc: ParsedDoc, i: nat)
    requires i < |doc.tokens| && IsRootVerb(doc.tokens[i]) && |doc.tokens[i].text| > 0
    requires forall j :: 0 <= j < i ==> !IsRootVerb(doc.tokens[j])
    requires doc.tokens[i].tag != "VB"
    ensures Validate(doc)
  {
    FirstRootVerbDecides(doc, i);
  }

  /** A base-form root verb violates the rule exactly when it has an `nsubj` child. */
  lemma BaseFormNeedsNoSubject(doc: ParsedDoc, i: nat)
    requires i < |doc.tokens| && IsRootVerb(doc.tokens[i]) && |doc.tokens[i].text| > 0
    requires forall j :: 0 <= j < i ==> !IsRootVerb(doc.tokens[j])
    requires doc.tokens[i].tag == "VB"
    ensures Validate(doc) <==> exists j: nat :: IsChild(doc, i, j) && doc.tokens[j].dep == "nsubj"
  {
    FirstRootVerbDecides(doc, i);
  }
}
