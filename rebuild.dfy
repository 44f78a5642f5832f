/** The paragraph loop of `clean_docx` (cleaner.py, lines 45-83): walks the
    paragraphs of the source document in order, drops the artifacts, and
    adds to the new document one paragraph per survivor, carrying over its
    alignment, its style and either its runs or one run of cleaned text.

    The documents are plain values: a document is its sequence of
    paragraphs, and the new document starts empty, as `Document()` does. */
module Rebuild {
  import opened Wrappers
  import opened PyStr
  import opened Artifacts
  import opened TextCleaning

  // ---------------------------------------------------------------------
  // Data model
  // ---------------------------------------------------------------------

  /** A character-formatting flag of python-docx: `None` (inherited from the
      style), `False` or `True`. */
  datatype TriState = Inherit | Off | On

  /** `run.underline`: inherited, off, single, or one of the named line styles. */
  datatype Underline = UnderlineInherit | UnderlineOff | UnderlineOn | UnderlineStyle(name: string)

  /** The values of `WD_PARAGRAPH_ALIGNMENT`. */
  datatype Alignment = Left | Center | Right | Justify | Distribute | JustifyMed | JustifyHi | JustifyLow | ThaiJustify

  /** A run: its text and the formatting the loop copies. The font size is a
      length in English Metric Units. */
  datatype Run = Run(text: string, bold: TriState, italic: TriState, underline: Underline,
                     fontName: Option<string>, fontSize: Option<int>)

  /** A paragraph: its text, alignment, style and runs. `style` is the name
      of the style `paragraph.style` returns, which for a paragraph with no
      style of its own is the document's default paragraph style; it is
      `None` only when the document defines no such style. In the source
      document the text is not always the runs' text (text in a hyperlink,
      for one, is in the paragraph's text but in none of its runs), so the
      two are independent here. */
  datatype Paragraph = Paragraph(text: string, alignment: Option<Alignment>, style: Option<string>, runs: seq<Run>)

  /** The concatenation of the runs' texts. */
  function RunsText(runs: seq<Run>): string {
    if runs == [] then "" else RunsText(runs[..|runs| - 1]) + runs[|runs| - 1].text
  }

  /** A paragraph of the new document has exactly the text of its runs. */
  predicate TextFromRuns(p: Paragraph) {
    p.text == RunsText(p.runs)
  }

  // ---------------------------------------------------------------------
  // The new document's building blocks
  // ---------------------------------------------------------------------

  /** `new_doc.add_paragraph()`: no text, no runs, default alignment and style. */
  const EmptyParagraph := Paragraph("", None, None, [])

  /** The run `add_run(text)` creates: the text with no direct formatting. */
  function NewRun(text: string): (r: Run)
    ensures r.text == text
  {
    Run(text, Inherit, Inherit, UnderlineInherit, None, None)
  }

  /** `para.add_run(...)`: the run goes last, and its text extends the paragraph's. */
  function AddRun(p: Paragraph, r: Run): (q: Paragraph)
    ensures TextFromRuns(p) ==> TextFromRuns(q)
    ensures q.runs == p.runs + [r] && q.alignment == p.alignment && q.style == p.style
  {
    assert (p.runs + [r])[..|p.runs|] == p.runs;
    p.(text := p.text + r.text, runs := p.runs + [r])
  }

  // ---------------------------------------------------------------------
  // Specification of the loop
  // ---------------------------------------------------------------------

  /** A font attribute is copied only when it is set: a name that is not
      `None` or empty, a size that is not `None` or zero (lines 75-78). */
  function SetName(name: Option<string>): Option<string> {
    if name.Some? && name.value != "" then name else None
  }

  function SetSize(size: Option<int>): Option<int> {
    if size.Some? && size.value != 0 then size else None
  }

  /** The run the loop makes from a source run (lines 70-78). */
  function CopiedRun(run: Run): Run {
    Run(run.text, run.bold, run.italic, run.underline, SetName(run.fontName), SetSize(run.fontSize))
  }

  function CopiedRuns(runs: seq<Run>): (r: seq<Run>)
    ensures |r| == |runs|
    ensures forall k :: 0 <= k < |runs| ==> r[k] == CopiedRun(runs[k])
  {
    seq(|runs|, k requires 0 <= k < |runs| => CopiedRun(runs[k]))
  }

  /** The runs the loop gives a surviving paragraph: copies of its own runs,
      or, when it has none, one run holding its cleaned text (lines 66-81). */
  function RebuiltRuns(p: Paragraph): seq<Run> {
    if |p.runs| > 0 then CopiedRuns(p.runs) else [NewRun(CleanText(p.text))]
  }

  /** The paragraph the loop adds for a surviving source paragraph: the
      source's alignment and style, and its rebuilt runs. When `style` is
      `None` (line 62 is false) the new paragraph is given no style, so it
      keeps the new document's default. */
  function Rebuilt(p: Paragraph): Paragraph {
    var runs := RebuiltRuns(p);
    Paragraph(RunsText(runs), p.alignment, p.style, runs)
  }

  /** The loop keeps a paragraph that is not an artifact (line 49) and whose
      cleaned text is not empty (line 57). */
  predicate Keeps(p: Paragraph) {
    !IsPureArtifact(p.text) && CleanText(p.text) != ""
  }

  /** What one pass of the loop adds to the new document for `p`. */
  function Emitted(p: Paragraph): seq<Paragraph> {
    if Keeps(p) then [Rebuilt(p)] else []
  }

  /** The new document after the loop has seen the paragraphs of `doc`. */
  function CleanedDocument(doc: seq<Paragraph>): seq<Paragraph> {
    if doc == [] then [] else CleanedDocument(doc[..|doc| - 1]) + Emitted(doc[|doc| - 1])
  }

  // ---------------------------------------------------------------------
  // The loop (lines 45-83)
  // ---------------------------------------------------------------------

  /** The paragraph loop of `clean_docx`: the new document's paragraphs. */
  method CleanDocx(doc: seq<Paragraph>) returns (newDoc: seq<Paragraph>)
    ensures newDoc == CleanedDocument(doc)
  {
    newDoc := [];
    for i := 0 to |doc|
      invariant newDoc == CleanedDocument(doc[..i])
    {
      CleanedDocumentStep(doc, i);
      var paragraph := doc[i];
      var text := paragraph.text;
      if IsPureArtifact(text) {
        continue;
      }
      var cleanedText := CleanText(text);
      if cleanedText != "" {
        var newPara := NewParagraph(paragraph, cleanedText);
        newDoc := newDoc + [newPara];
      }
    }
    assert doc[..|doc|] == doc;
  }

  /** One more paragraph seen: the new document grows by its rebuilt form
      when the loop keeps it, and stays as it was otherwise. */
  lemma CleanedDocumentStep(doc: seq<Paragraph>, i: nat)
    requires i < |doc|
    ensures CleanedDocument(doc[..i + 1]) == CleanedDocument(doc[..i]) + Emitted(doc[i])
  {
    assert doc[..i + 1][..i] == doc[..i];
  }

  /** Lines 59-81: the new paragraph for a kept source paragraph. */
  method NewParagraph(paragraph: Paragraph, cleanedText: string) returns (newPara: Paragraph)
    requires cleanedText == CleanText(paragraph.text)
    ensures newPara == Rebuilt(paragraph)
  {
    newPara := EmptyParagraph;
    newPara := newPara.(alignment := paragraph.alignment);
    if paragraph.style.Some? {
      newPara := newPara.(style := paragraph.style);
    }
    var runs := paragraph.runs;
    if |runs| > 0 {
      newPara := CopyRuns(newPara, runs);
    } else {
      newPara := AddRun(newPara, NewRun(cleanedText));
      assert RunsText([NewRun(cleanedText)]) == RunsText([]) + cleanedText;
    }
  }

  /** Lines 69-78: one new run per source run, with its text and formatting. */
  method CopyRuns(para: Paragraph, runs: seq<Run>) returns (newPara: Paragraph)
    requires para.runs == [] && para.text == ""
    ensures newPara == para.(text := RunsText(CopiedRuns(runs)), runs := CopiedRuns(runs))
  {
    newPara := para;
    for k := 0 to |runs|
      invariant newPara == para.(text := RunsText(CopiedRuns(runs)[..k]), runs := CopiedRuns(runs)[..k])
    {
      var newRun := CopyRun(runs[k]);
      assert CopiedRuns(runs)[..k + 1] == CopiedRuns(runs)[..k] + [newRun];
      newPara := AddRun(newPara, newRun);
    }
    assert CopiedRuns(runs)[..|runs|] == CopiedRuns(runs);
  }

  /** Lines 70-78: a new run with the source run's text, bold, italic and
      underline, and its font name and size when they are set. */
  method CopyRun(run: Run) returns (newRun: Run)
    ensures newRun == CopiedRun(run)
  {
    newRun := NewRun(run.text);
    newRun := newRun.(bold := run.bold, italic := run.italic, underline := run.underline);
    if run.fontName.Some? && run.fontName.value != "" {
      newRun := newRun.(fontName := run.fontName);
    }
    if run.fontSize.Some? && run.fontSize.value != 0 {
      newRun := newRun.(fontSize := run.fontSize);
    }
  }
}
