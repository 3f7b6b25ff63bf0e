/**
 * The annotation logic of the web front end. For every checked sentence the
 * numbers of the violated rules (1 to 5) become a footnote, written as the
 * numbers joined by commas. In text mode the sentences are concatenated into
 * one output string with the footnote in `<sup>` tags; in file mode each
 * sentence becomes a paragraph of a Word document, followed by a run whose
 * characters are superscripted when they are digits. Both modes count the
 * violations and show "No violations." when there are none.
 */
module App {
  import opened Text
  import opened RuleChecking

  // ---------------------------------------------------------------------
  // the annotation of one result

  /** The number of true flags. */
  function CountTrue(v: seq<bool>): (n: nat)
    ensures n <= |v|
  {
    if v == [] then 0 else CountTrue(v[..|v| - 1]) + (if v[|v| - 1] then 1 else 0)
  }

  /** The 1-based positions of the true flags, in the order of `enumerate`. */
  function TrueSlots(v: seq<bool>): seq<nat> {
    if v == [] then [] else TrueSlots(v[..|v| - 1]) + (if v[|v| - 1] then [|v|] else [])
  }

  /** `[str(i) for i in slots]`. */
  function Labels(slots: seq<nat>): (r: seq<string>)
    ensures |r| == |slots|
  {
    if slots == [] then [] else Labels(slots[..|slots| - 1]) + [DecimalString(slots[|slots| - 1])]
  }

  /** The `annotation` list built for a result's flags. */
  function AnnotationOf(v: seq<bool>): seq<string> {
    Labels(TrueSlots(v))
  }

  /** The footnote text, `",".join(annotation)`. */
  function Footnote(v: seq<bool>): string {
    Join(AnnotationOf(v), ",")
  }

  lemma {:induction false} TrueSlotsCount(v: seq<bool>)
    ensures |TrueSlots(v)| == CountTrue(v)
    decreases |v|
  {
    if v != [] {
      TrueSlotsCount(v[..|v| - 1]);
    }
  }

  lemma {:induction false} TrueSlotsSound(v: seq<bool>)
    ensures forall k :: 0 <= k < |TrueSlots(v)| ==>
      1 <= TrueSlots(v)[k] <= |v| && v[TrueSlots(v)[k] - 1]
    decreases |v|
  {
    if v != [] {
      var m := |v| - 1;
      var init := v[..m];
      TrueSlotsSound(init);
      var s0 := TrueSlots(init);
      var s := TrueSlots(v);
      assert s == s0 + (if v[m] then [|v|] else []);
      forall k | 0 <= k < |s| ensures 1 <= s[k] <= |v| && v[s[k] - 1] {
        if k < |s0| {
          assert s[k] == s0[k];
          assert init[s0[k] - 1] == v[s0[k] - 1];
        }
      }
    }
  }

  lemma {:induction false} TrueSlotsComplete(v: seq<bool>)
    ensures forall i :: 0 <= i < |v| && v[i] ==> i + 1 in TrueSlots(v)
    decreases |v|
  {
    if v != [] {
      var m := |v| - 1;
      var init := v[..m];
      TrueSlotsComplete(init);
      var s0 := TrueSlots(init);
      var s := TrueSlots(v);
      assert s == s0 + (if v[m] then [|v|] else []);
      forall i | 0 <= i < |v| && v[i] ensures i + 1 in s {
        if i < m {
          assert init[i] == v[i];
          assert i + 1 in s0;
        }
      }
    }
  }

  lemma {:induction false} TrueSlotsAscending(v: seq<bool>)
    ensures forall k, l :: 0 <= k < l < |TrueSlots(v)| ==> TrueSlots(v)[k] < TrueSlots(v)[l]
    decreases |v|
  {
    if v != [] {
      var m := |v| - 1;
      var init := v[..m];
      TrueSlotsAscending(init);
      TrueSlotsSound(init);
      var s0 := TrueSlots(init);
      var s := TrueSlots(v);
      assert s == s0 + (if v[m] then [|v|] else []);
      forall k, l | 0 <= k < l < |s| ensures s[k] < s[l] {
        assert s[k] == s0[k];
        if l < |s0| {
          assert s[l] == s0[l];
        }
      }
    }
  }

  /** The slots are exactly the 1-based positions of the true flags, ascending, one per
      true flag. */
  lemma TrueSlotsSpec(v: seq<bool>)
    ensures |TrueSlots(v)| == CountTrue(v)
    ensures forall k :: 0 <= k < |TrueSlots(v)| ==>
      1 <= TrueSlots(v)[k] <= |v| && v[TrueSlots(v)[k] - 1]
    ensures forall i :: 0 <= i < |v| && v[i] ==> i + 1 in TrueSlots(v)
    ensures forall k, l :: 0 <= k < l < |TrueSlots(v)| ==> TrueSlots(v)[k] < TrueSlots(v)[l]
  {
    TrueSlotsCount(v);
    TrueSlotsSound(v);
    TrueSlotsComplete(v);
    TrueSlotsAscending(v);
  }

  /** With no true flag there is no annotation, and conversely. */
  lemma AnnotationEmptyIff(v: seq<bool>)
    ensures AnnotationOf(v) == [] <==> forall i :: 0 <= i < |v| ==> !v[i]
    ensures AnnotationOf(v) == [] <==> CountTrue(v) == 0
  {
    TrueSlotsSpec(v);
    if exists i :: 0 <= i < |v| && v[i] {
      var i :| 0 <= i < |v| && v[i];
      assert i + 1 in TrueSlots(v);
    }
  }

  /** Every character of a footnote is a digit or a comma. */
  lemma FootnoteChars(v: seq<bool>)
    ensures forall j :: 0 <= j < |Footnote(v)| ==> IsDigit(Footnote(v)[j]) || Footnote(v)[j] == ','
  {
    var parts := AnnotationOf(v);
    LabelsDigits(TrueSlots(v));
    JoinChars(parts, ",", c => IsDigit(c) || c == ',');
  }

  lemma {:induction false} LabelsDigits(slots: seq<nat>)
    ensures forall k, j :: 0 <= k < |slots| && 0 <= j < |Labels(slots)[k]| ==> IsDigit(Labels(slots)[k][j])
    ensures forall k :: 0 <= k < |slots| ==> Labels(slots)[k] == DecimalString(slots[k])
    decreases |slots|
  {
    if slots != [] {
      LabelsDigits(slots[..|slots| - 1]);
    }
  }

  /** A footnote reads back: splitting it at the commas and parsing each piece gives the
      violated rule numbers in ascending order. */
  lemma FootnoteRoundTrip(v: seq<bool>)
    requires CountTrue(v) > 0
    ensures |SplitOn(Footnote(v), ',')| == |TrueSlots(v)|
    ensures forall k :: 0 <= k < |TrueSlots(v)| ==>
      (forall j :: 0 <= j < |SplitOn(Footnote(v), ',')[k]| ==> IsDigit(SplitOn(Footnote(v), ',')[k][j]))
      && ParseDecimal(SplitOn(Footnote(v), ',')[k]) == TrueSlots(v)[k]
  {
    var slots := TrueSlots(v);
    var parts := Labels(slots);
    TrueSlotsSpec(v);
    LabelsDigits(slots);
    assert forall k :: 0 <= k < |parts| ==> ',' !in parts[k];
    SplitJoin(parts, ',');
    assert SplitOn(Footnote(v), ',') == parts;
    forall k | 0 <= k < |slots| ensures ParseDecimal(parts[k]) == slots[k] {
      ParseDecimalString(slots[k]);
    }
  }

  /** One more flag adds its rule number to the annotation when it is set. */
  lemma AnnotationStep(v: seq<bool>, i: nat)
    requires i < |v|
    ensures AnnotationOf(v[..i + 1]) == AnnotationOf(v[..i]) + (if v[i] then [DecimalString(i + 1)] else [])
    ensures CountTrue(v[..i + 1]) == CountTrue(v[..i]) + (if v[i] then 1 else 0)
  {
    var before := v[..i];
    assert v[..i + 1][..i] == before;
    var slots := TrueSlots(v[..i + 1]);
    if v[i] {
      assert slots == TrueSlots(before) + [i + 1];
      assert slots[..|slots| - 1] == TrueSlots(before);
    } else {
      assert slots == TrueSlots(before) + [];
      assert TrueSlots(before) + [] == TrueSlots(before);
      assert AnnotationOf(before) + [] == AnnotationOf(before);
    }
  }

  /** The loop over `enumerate(result["violations"])`: the annotation list, and the
      running violation total increased by one per true flag. */
  method Annotate(violations: seq<bool>, total0: nat) returns (annotation: seq<string>, total: nat)
    ensures annotation == AnnotationOf(violations)
    ensures total == total0 + CountTrue(violations)
  {
    annotation := [];
    total := total0;
    for i := 0 to |violations|
      invariant annotation == AnnotationOf(violations[..i])
      invariant total == total0 + CountTrue(violations[..i])
    {
      AnnotationStep(violations, i);
      if violations[i] {
        total := total + 1;
        annotation := annotation + [DecimalString(i + 1)];
      } else {
        assert annotation + [] == annotation;
      }
    }
    assert violations[..|violations|] == violations;
  }

  // ---------------------------------------------------------------------
  // superscript runs

  /** One run element: a character and whether it is set in superscript. */
  datatype Glyph = Glyph(ch: char, superscript: bool)

  /** The elements `add_superscript` appends for a text. */
  function Superscripted(text: string): (r: seq<Glyph>)
    ensures |r| == |text|
  {
    seq(|text|, i requires 0 <= i < |text| => Glyph(text[i], IsDigit(text[i])))
  }

  /** `add_superscript`: one element per character, in order, superscripted when the
      character is a digit. */
  method AddSuperscript(text: string) returns (run: seq<Glyph>)
    ensures run == Superscripted(text)
  {
    run := [];
    for i := 0 to |text|
      invariant |run| == i
      invariant forall k :: 0 <= k < i ==> run[k] == Glyph(text[k], IsDigit(text[k]))
    {
      var c := text[i];
      run := run + [Glyph(c, IsDigit(c))];
    }
  }

  /** A footnote's run spells the footnote, with the digits raised and the commas not. */
  lemma FootnoteRun(v: seq<bool>)
    ensures var run := Superscripted(Footnote(v));
      && |run| == |Footnote(v)|
      && forall j :: 0 <= j < |run| ==>
           run[j].ch == Footnote(v)[j] && (run[j].superscript <==> run[j].ch != ',')
  {
    FootnoteChars(v);
  }

  // ---------------------------------------------------------------------
  // totals

  /** The number of true flags over all results. */
  function TotalViolations(rs: seq<CheckResult>): nat {
    if rs == [] then 0
    else TotalViolations(rs[..|rs| - 1]) + CountTrue(rs[|rs| - 1].violations)
  }

  lemma {:induction false} CountTrueZero(v: seq<bool>)
    ensures CountTrue(v) == 0 <==> forall i :: 0 <= i < |v| ==> !v[i]
    decreases |v|
  {
    if v != [] {
      var init := v[..|v| - 1];
      CountTrueZero(init);
      assert forall i :: 0 <= i < |init| ==> init[i] == v[i];
    }
  }

  /** The total is zero exactly when no flag of any result is set. */
  lemma {:induction false} TotalZeroIffClean(rs: seq<CheckResult>)
    ensures TotalViolations(rs) == 0 <==>
      forall i, k :: 0 <= i < |rs| && 0 <= k < |rs[i].violations| ==> !rs[i].violations[k]
    decreases |rs|
  {
    if rs != [] {
      var init := rs[..|rs| - 1];
      TotalZeroIffClean(init);
      CountTrueZero(rs[|rs| - 1].violations);
      assert forall i :: 0 <= i < |init| ==> init[i] == rs[i];
    }
  }

  // ---------------------------------------------------------------------
  // file mode: the Word document

  /** A paragraph: the sentence, then the runs added after it. */
  datatype Paragraph = Paragraph(text: string, runs: seq<seq<Glyph>>)

  /** The paragraph written for one result: a footnote run only when a rule is violated. */
  function DocxParagraph(r: CheckResult): Paragraph {
    if AnnotationOf(r.violations) == [] then Paragraph(r.sentence, [])
    else Paragraph(r.sentence, [Superscripted(Footnote(r.violations))])
  }

  function DocxParagraphs(rs: seq<CheckResult>): (ps: seq<Paragraph>)
    ensures |ps| == |rs|
  {
    if rs == [] then [] else DocxParagraphs(rs[..|rs| - 1]) + [DocxParagraph(rs[|rs| - 1])]
  }

  lemma DocxParagraphsStep(rs: seq<CheckResult>, n: nat)
    requires n < |rs|
    ensures DocxParagraphs(rs[..n + 1]) == DocxParagraphs(rs[..n]) + [DocxParagraph(rs[n])]
  {
    assert rs[..n + 1][..n] == rs[..n];
  }

  lemma TotalStep(rs: seq<CheckResult>, n: nat)
    requires n < |rs|
    ensures TotalViolations(rs[..n + 1]) == TotalViolations(rs[..n]) + CountTrue(rs[n].violations)
  {
    assert rs[..n + 1][..n] == rs[..n];
  }

  /** One paragraph per result, in order, holding the sentence; it carries a run exactly
      when the sentence violates a rule, and that run is the footnote. */
  lemma {:induction false} DocxParagraphsSlots(rs: seq<CheckResult>)
    ensures forall i :: 0 <= i < |rs| ==>
      && DocxParagraphs(rs)[i].text == rs[i].sentence
      && (DocxParagraphs(rs)[i].runs != [] <==> exists k :: 0 <= k < |rs[i].violations| && rs[i].violations[k])
      && (DocxParagraphs(rs)[i].runs != [] ==>
            DocxParagraphs(rs)[i].runs == [Superscripted(Footnote(rs[i].violations))])
    decreases |rs|
  {
    if rs != [] {
      var init := rs[..|rs| - 1];
      DocxParagraphsSlots(init);
      AnnotationEmptyIff(rs[|rs| - 1].violations);
      assert forall i :: 0 <= i < |init| ==> init[i] == rs[i];
    }
  }

  /** `write_to_docx` without the saving: the paragraphs and the violation total. */
  method WriteToDocx(results: seq<CheckResult>) returns (paragraphs: seq<Paragraph>, total: nat)
    ensures paragraphs == DocxParagraphs(results)
    ensures total == TotalViolations(results)
  {
    paragraphs := [];
    total := 0;
    for n := 0 to |results|
      invariant paragraphs == DocxParagraphs(results[..n])
      invariant total == TotalViolations(results[..n])
    {
      var result := results[n];
      var annotation;
      annotation, total := Annotate(result.violations, total);
      var runs: seq<seq<Glyph>> := [];
      if annotation != [] {
        var superscriptText := Join(annotation, ",");
        var run := AddSuperscript(superscriptText);
        runs := [run];
      }
      assert Paragraph(result.sentence, runs) == DocxParagraph(result);
      paragraphs := paragraphs + [Paragraph(result.sentence, runs)];
      DocxParagraphsStep(results, n);
      TotalStep(results, n);
    }
    assert results[..|results|] == results;
  }

  // ---------------------------------------------------------------------
  // text mode: the output string

  /** What the text mode appends for one result. */
  function SentenceMarkup(r: CheckResult): string {
    if |AnnotationOf(r.violations)| > 0 then r.sentence + "<sup>" + Footnote(r.violations) + "</sup> "
    else r.sentence + " "
  }

  /** The pieces glued together, in order. */
  function Concat(pieces: seq<string>): string {
    if pieces == [] then "" else Concat(pieces[..|pieces| - 1]) + pieces[|pieces| - 1]
  }

  function Markups(rs: seq<CheckResult>): (r: seq<string>)
    ensures |r| == |rs|
  {
    seq(|rs|, i requires 0 <= i < |rs| => SentenceMarkup(rs[i]))
  }

  /** The text-mode output for a list of results. */
  function RenderedText(rs: seq<CheckResult>): string {
    Concat(Markups(rs))
  }

  lemma {:induction false} ConcatAppend(p: seq<string>, q: seq<string>)
    ensures Concat(p + q) == Concat(p) + Concat(q)
    decreases |q|
  {
    if q == [] {
      assert p + q == p;
    } else {
      var init := q[..|q| - 1];
      ConcatAppend(p, init);
      var pq := p + q;
      assert pq[..|pq| - 1] == p + init;
      assert pq[|pq| - 1] == q[|q| - 1];
      var cp, ci, last := Concat(p), Concat(init), q[|q| - 1];
      assert (cp + ci) + last == cp + (ci + last);
    }
  }

  /** The output of two runs of results is the output of the first followed by that of
      the second: each sentence is rendered on its own, in order. */
  lemma RenderedConcat(a: seq<CheckResult>, b: seq<CheckResult>)
    ensures RenderedText(a + b) == RenderedText(a) + RenderedText(b)
  {
    assert Markups(a + b) == Markups(a) + Markups(b);
    ConcatAppend(Markups(a), Markups(b));
  }

  lemma RenderedStep(rs: seq<CheckResult>, n: nat)
    requires n < |rs|
    ensures RenderedText(rs[..n + 1]) == RenderedText(rs[..n]) + SentenceMarkup(rs[n])
  {
    var ms := Markups(rs[..n + 1]);
    assert ms == Markups(rs[..n]) + [SentenceMarkup(rs[n])];
    assert ms[..|ms| - 1] == Markups(rs[..n]);
  }

  /** A sentence with a violation is followed by its footnote in superscript tags, a
      clean one by a single space. */
  lemma MarkupShape(r: CheckResult)
    ensures (exists k :: 0 <= k < |r.violations| && r.violations[k]) ==>
      SentenceMarkup(r) == r.sentence + "<sup>" + Footnote(r.violations) + "</sup> "
    ensures (forall k :: 0 <= k < |r.violations| ==> !r.violations[k]) ==>
      SentenceMarkup(r) == r.sentence + " "
  {
    AnnotationEmptyIff(r.violations);
  }

  /** The two appends of the loop body add the sentence's markup. */
  lemma MarkupAppend(before: string, r: CheckResult)
    ensures |AnnotationOf(r.violations)| > 0 ==>
      before + r.sentence + "<sup>" + Join(AnnotationOf(r.violations), ",") + "</sup> "
        == before + SentenceMarkup(r)
    ensures |AnnotationOf(r.violations)| == 0 ==> before + r.sentence + " " == before + SentenceMarkup(r)
  {
  }

  /** The text-mode loop (the output string and the total). */
  method RenderText(results: seq<CheckResult>) returns (output: string, total: nat)
    ensures output == RenderedText(results)
    ensures total == TotalViolations(results)
  {
    output := "";
    total := 0;
    for n := 0 to |results|
      invariant output == RenderedText(results[..n])
      invariant total == TotalViolations(results[..n])
    {
      var result := results[n];
      ghost var before := output;
      output := output + result.sentence;
      var annotation;
      annotation, total := Annotate(result.violations, total);
      if |annotation| > 0 {
        output := output + "<sup>" + Join(annotation, ",") + "</sup> ";
      } else {
        output := output + " ";
      }
      MarkupAppend(before, result);
      RenderedStep(results, n);
      TotalStep(results, n);
    }
    assert results[..|results|] == results;
  }

  // ---------------------------------------------------------------------
  // the two input modes after "Check Rules"

  /** What the page shows. */
  datatype Display =
    | NothingShown                          // the text is blank
    | NoViolations                          // "No violations."
    | Markdown(output: string)              // the annotated text
    | Download(paragraphs: seq<Paragraph>)  // the link to the annotated document
    | Crashed                               // `check_rules` raised

  /** Text mode: a non-blank text is checked; "No violations." exactly when no flag is
      set, and otherwise the annotated text. */
  method TextMode(checker: RuleChecker, text: string) returns (d: Display)
    ensures Strip(text) == [] ==> d == NothingShown
    ensures Strip(text) != [] && checker.Expected(text).Err? ==> d == Crashed
    ensures Strip(text) != [] && checker.Expected(text).Ok? ==>
      var rs := checker.Expected(text).results;
      && (d == NoViolations <==> TotalViolations(rs) == 0)
      && (TotalViolations(rs) != 0 ==> d == Markdown(RenderedText(rs)))
  {
    if Strip(text) == [] {
      return NothingShown;
    }
    var out := checker.CheckRules(text);
    if out.Err? {
      return Crashed;
    }
    var output, total := RenderText(out.results);
    if total == 0 {
      d := NoViolations;
    } else {
      d := Markdown(output);
    }
  }

  /** File mode: the same check, with the annotated document offered for download when
      some flag is set. */
  method FileMode(checker: RuleChecker, text: string) returns (d: Display)
    ensures Strip(text) == [] ==> d == NothingShown
    ensures Strip(text) != [] && checker.Expected(text).Err? ==> d == Crashed
    ensures Strip(text) != [] && checker.Expected(text).Ok? ==>
      var rs := checker.Expected(text).results;
      && (d == NoViolations <==> TotalViolations(rs) == 0)
      && (TotalViolations(rs) != 0 ==> d == Download(DocxParagraphs(rs)))
  {
    if Strip(text) == [] {
      return NothingShown;
    }
    var out := checker.CheckRules(text);
    if out.Err? {
      return Crashed;
    }
    var paragraphs, total := WriteToDocx(out.results);
    if total == 0 {
      d := NoViolations;
    } else {
      d := Download(paragraphs);
    }
  }
}
