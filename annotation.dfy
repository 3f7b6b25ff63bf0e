/**
 * The linguistic annotation a sentence receives from the tagger and parser,
 * as plain data: tokens with their tag, coarse part of speech, dependency
 * label and syntactic head, and the noun-chunk spans over them. The annotator
 * itself is not modelled; every component that needs one takes it as an
 * argument of type `string -> ParsedDoc`.
 */
module Annotation {

  /** One token: `text`, fine tag (`tag_`), coarse part of speech (`pos_`),
      dependency label (`dep_`), the index of its head, `is_punct` and `is_space`. */
  datatype Token = Token(text: string, tag: string, pos: string, dep: string,
                         head: nat, isPunct: bool, isSpace: bool)

  /** A noun chunk: the tokens `start` up to (not including) `end`, with root token `root`. */
  datatype NounChunk = NounChunk(start: nat, end: nat, root: nat)

  datatype Doc = Doc(tokens: seq<Token>, nounChunks: seq<NounChunk>)

  /** Every head is a token of the doc; every chunk is a non-empty span holding its root. */
  predicate WellFormed(d: Doc) {
    && (forall i :: 0 <= i < |d.tokens| ==> d.tokens[i].head < |d.tokens|)
    && (forall c :: c in d.nounChunks ==> c.start <= c.root < c.end <= |d.tokens|)
  }

  /** What the annotator returns. */
  type ParsedDoc = d: Doc | WellFormed(d) witness Doc([], [])

  /** Token `j` is a child of token `i`: its head is `i`, and it is not `i` itself
      (a root token is its own head and not its own child). */
  predicate IsChild(doc: Doc, i: nat, j: nat) {
    j < |doc.tokens| && j != i && doc.tokens[j].head == i
  }

  /** The children of token `i` among the first `n` tokens, in doc order. */
  function ChildrenBelow(doc: Doc, i: nat, n: nat): (r: seq<nat>)
    requires n <= |doc.tokens|
    ensures forall j: nat :: j in r <==> j < n && IsChild(doc, i, j)
    ensures forall a, b :: 0 <= a < b < |r| ==> r[a] < r[b]
    ensures forall a :: 0 <= a < |r| ==> r[a] < n
  {
    if n == 0 then []
    else ChildrenBelow(doc, i, n - 1) + (if IsChild(doc, i, n - 1) then [n - 1] else [])
  }

  /** `token.children`: the children of token `i`, in doc order. */
  function Children(doc: Doc, i: nat): seq<nat> {
    ChildrenBelow(doc, i, |doc.tokens|)
  }

  /** `any(child.dep_ == dep for child in token.children)`, scanning the children in order. */
  predicate ChildWithDepFrom(doc: Doc, children: seq<nat>, dep: string) {
    children != [] &&
    ((children[0] < |doc.tokens| && doc.tokens[children[0]].dep == dep)
     || ChildWithDepFrom(doc, children[1..], dep))
  }

  /** Some child of token `i` carries the label `dep`. */
  predicate HasChildWithDep(doc: Doc, i: nat, dep: string) {
    ChildWithDepFrom(doc, Children(doc, i), dep)
  }

  lemma {:induction false} ChildWithDepFromIff(doc: Doc, children: seq<nat>, dep: string)
    requires forall a :: 0 <= a < |children| ==> children[a] < |doc.tokens|
    ensures ChildWithDepFrom(doc, children, dep)
        <==> exists j :: j in children && doc.tokens[j].dep == dep
  {
    if children != [] {
      ChildWithDepFromIff(doc, children[1..], dep);
      if exists j :: j in children && doc.tokens[j].dep == dep {
        var j :| j in children && doc.tokens[j].dep == dep;
        if j != children[0] {
          assert j in children[1..];
        }
      }
    }
  }

  /** The children search finds exactly the tokens attached to `i` with label `dep`. */
  lemma HasChildWithDepIff(doc: Doc, i: nat, dep: string)
    ensures HasChildWithDep(doc, i, dep)
        <==> exists j: nat :: IsChild(doc, i, j) && doc.tokens[j].dep == dep
  {
    var cs := Children(doc, i);
    ChildWithDepFromIff(doc, cs, dep);
    if exists j: nat :: IsChild(doc, i, j) && doc.tokens[j].dep == dep {
      var j: nat :| IsChild(doc, i, j) && doc.tokens[j].dep == dep;
      assert j in cs;
    }
  }

  /** A token with dependency label ROOT and coarse part of speech VERB. */
  predicate IsRootVerb(t: Token) {
    t.dep == "ROOT" && t.pos == "VERB"
  }
}
