/**
 * Rule 5: sentences are short. A sentence violates the rule when it has more
 * than 20 words, counting every token that is neither punctuation nor space.
 */
module Rule5 {
  import opened Annotation

  const MaxWords := 20

  predicate IsWord(t: Token) {
    !t.isPunct && !t.isSpace
  }

  /** `sum(1 for token in doc if not token.is_punct and not token.is_space)`. */
  function WordCount(tokens: seq<Token>): (n: nat)
    ensures n <= |tokens|
  {
    if tokens == [] then 0
    else (if IsWord(tokens[0]) then 1 else 0) + WordCount(tokens[1..])
  }

  /** `Rule5Validator.validate`: true means the sentence violates rule 5. */
  predicate Validate(doc: ParsedDoc) {
    WordCount(doc.tokens) > MaxWords
  }

  /** The count is additive over concatenation. */
  lemma {:induction false} WordCountConcat(a: seq<Token>, b: seq<Token>)
    ensures WordCount(a + b) == WordCount(a) + WordCount(b)
  {
    if a != [] {
      assert (a + b)[1..] == a[1..] + b;
      WordCountConcat(a[1..], b);
    } else {
      assert a + b == b;
    }
  }

  /** A sequence of words counts its own length. */
  lemma {:induction false} AllWordsCount(tokens: seq<Token>)
    requires forall i :: 0 <= i < |tokens| ==> IsWord(tokens[i])
    ensures WordCount(tokens) == |tokens|
  {
    if tokens != [] {
      AllWordsCount(tokens[1..]);
    }
  }

  /** Inserting or removing a punctuation or space token never changes the verdict. */
  lemma NonWordIgnored(d1: ParsedDoc, d2: ParsedDoc, a: seq<Token>, t: Token, b: seq<Token>)
    requires !IsWord(t)
    requires d1.tokens == a + [t] + b && d2.tokens == a + b
    ensures WordCount(d1.tokens) == WordCount(d2.tokens)
    ensures Validate(d1) == Validate(d2)
  {
    WordCountConcat(a + [t], b);
    WordCountConcat(a, [t]);
    WordCountConcat(a, b);
    assert WordCount([t]) == 0;
  }

  /** Appending a word adds one to the count, so it can only turn a pass into a violation. */
  lemma AppendWordMonotone(d1: ParsedDoc, d2: ParsedDoc, w: Token)
    requires IsWord(w) && d2.tokens == d1.tokens + [w]
    ensures WordCount(d2.tokens) == WordCount(d1.tokens) + 1
    ensures Validate(d1) ==> Validate(d2)
  {
    WordCountConcat(d1.tokens, [w]);
    assert WordCount([w]) == 1;
  }

  /** A parse of at most 20 tokens passes, however its words are split. */
  lemma FewTokensPass(d: ParsedDoc)
    requires |d.tokens| <= MaxWords
    ensures !Validate(d)
  {
  }

  /** Exactly 20 words pass, 21 words violate. */
  lemma Boundary(d20: ParsedDoc, d21: ParsedDoc)
    requires |d20.tokens| == 20 && forall i :: 0 <= i < 20 ==> IsWord(d20.tokens[i])
    requires |d21.tokens| == 21 && forall i :: 0 <= i < 21 ==> IsWord(d21.tokens[i])
    ensures !Validate(d20) && Validate(d21)
  {
    AllWordsCount(d20.tokens);
    AllWordsCount(d21.tokens);
  }
}
