/** What the paragraph loop of `clean_docx` (cleaner.py, lines 45-83)
    promises about the new document. */
module RebuildFacts {
  import opened Wrappers
  import opened PyStr
  import opened Artifacts
  import opened ArtifactFacts
  import opened TextCleaning
  import opened TextCleaningFacts
  import opened Rebuild

  // ---------------------------------------------------------------------
  // Which paragraphs survive
  // ---------------------------------------------------------------------

  /** The emptiness check of line 57 never drops a paragraph: a text that is
      not an artifact is not all whitespace, so its cleaned text is not empty. */
  lemma KeepsIffNotArtifact(p: Paragraph)
    ensures Keeps(p) <==> !IsPureArtifact(p.text)
  {
    CleanTextEmpty(p.text);
  }

  /** Which paragraphs of `doc` are artifacts. */
  function ArtifactMarks(doc: seq<Paragraph>): (m: seq<bool>)
    ensures |m| == |doc|
    ensures forall i :: 0 <= i < |doc| ==> m[i] == IsPureArtifact(doc[i].text)
  {
    seq(|doc|, i requires 0 <= i < |doc| => IsPureArtifact(doc[i].text))
  }

  /** The positions of the unmarked entries of `m`, in increasing order. */
  function Unmarked(m: seq<bool>): (r: seq<nat>)
    ensures forall j :: 0 <= j < |r| ==> r[j] < |m|
    ensures forall j, k :: 0 <= j < k < |r| ==> r[j] < r[k]
    ensures forall i :: 0 <= i < |m| ==> (i in r <==> !m[i])
  {
    if m == [] then []
    else
      var n := |m| - 1;
      assert forall i :: 0 <= i < n ==> m[i] == m[..n][i];
      Unmarked(m[..n]) + (if m[n] then [] else [n])
  }

  /** The number of marked entries of `m`: every entry is marked or among
      the unmarked positions. */
  function Marked(m: seq<bool>): (c: nat)
    ensures c <= |m|
    ensures c == |m| - |Unmarked(m)|
    ensures c == 0 <==> forall i :: 0 <= i < |m| ==> !m[i]
  {
    if m == [] then 0
    else
      var n := |m| - 1;
      assert forall i :: 0 <= i < n ==> m[i] == m[..n][i];
      Marked(m[..n]) + (if m[n] then 1 else 0)
  }

  /** The positions of the paragraphs the loop keeps, in increasing order:
      exactly the positions of the paragraphs that are not artifacts. */
  function KeptIndices(doc: seq<Paragraph>): (r: seq<nat>)
    ensures forall j :: 0 <= j < |r| ==> r[j] < |doc|
    ensures forall j, k :: 0 <= j < k < |r| ==> r[j] < r[k]
    ensures forall i :: 0 <= i < |doc| ==> (i in r <==> !IsPureArtifact(doc[i].text))
  {
    Unmarked(ArtifactMarks(doc))
  }

  /** The number of artifact paragraphs in `doc`: the paragraphs that are
      not at a kept position. */
  function ArtifactCount(doc: seq<Paragraph>): (c: nat)
    ensures c <= |doc|
    ensures c == |doc| - |KeptIndices(doc)|
    ensures c == 0 <==> forall i :: 0 <= i < |doc| ==> !IsPureArtifact(doc[i].text)
  {
    Marked(ArtifactMarks(doc))
  }

  /** Marking a prefix marks the prefix. */
  lemma MarksOfPrefix(doc: seq<Paragraph>, n: nat)
    requires n <= |doc|
    ensures ArtifactMarks(doc[..n]) == ArtifactMarks(doc)[..n]
  {
    var a, b := ArtifactMarks(doc[..n]), ArtifactMarks(doc)[..n];
    forall i | 0 <= i < n ensures a[i] == b[i] {
      assert doc[..n][i] == doc[i];
    }
  }

  /** The new document holds, in order, the rebuilt non-artifact paragraphs
      of the source and nothing else. */
  lemma {:induction false} CleanedDocumentIndices(doc: seq<Paragraph>)
    ensures var out := CleanedDocument(doc); var kept := KeptIndices(doc);
      |out| == |kept| && forall j :: 0 <= j < |out| ==> out[j] == Rebuilt(doc[kept[j]])
  {
    if doc != [] {
      var n := |doc| - 1;
      var m := ArtifactMarks(doc);
      CleanedDocumentIndices(doc[..n]);
      MarksOfPrefix(doc, n);
      KeepsIffNotArtifact(doc[n]);
      var kept := KeptIndices(doc[..n]);
      assert m[..n] == m[..|m| - 1];
      assert KeptIndices(doc) == kept + (if m[n] then [] else [n]);
      assert forall j :: 0 <= j < |kept| ==> doc[..n][kept[j]] == doc[kept[j]];
    }
  }

  /** The new document has one paragraph per source paragraph, less one per artifact. */
  lemma {:induction false} CleanedDocumentCount(doc: seq<Paragraph>)
    ensures |CleanedDocument(doc)| == |doc| - ArtifactCount(doc)
  {
    if doc != [] {
      var n := |doc| - 1;
      var m := ArtifactMarks(doc);
      CleanedDocumentCount(doc[..n]);
      MarksOfPrefix(doc, n);
      KeepsIffNotArtifact(doc[n]);
      assert m[..n] == m[..|m| - 1];
    }
  }

  /** A document without artifacts keeps all its paragraphs, and only such a document does. */
  lemma NothingDroppedIffNoArtifact(doc: seq<Paragraph>)
    ensures |CleanedDocument(doc)| == |doc| <==> forall i :: 0 <= i < |doc| ==> !IsPureArtifact(doc[i].text)
  {
    CleanedDocumentCount(doc);
  }

  /** The loop treats each paragraph on its own: cleaning two documents one
      after the other gives the two cleaned documents one after the other. */
  lemma {:induction false} CleanedDocumentAppend(d1: seq<Paragraph>, d2: seq<Paragraph>)
    ensures CleanedDocument(d1 + d2) == CleanedDocument(d1) + CleanedDocument(d2)
  {
    if d2 == [] {
      assert d1 + d2 == d1;
    } else {
      var n := |d2| - 1;
      var c1, c2, e := CleanedDocument(d1), CleanedDocument(d2[..n]), Emitted(d2[n]);
      AppendLast(d1, d2);
      CleanedDocumentAppend(d1, d2[..n]);
      ConcatAssoc(c1, c2, e);
    }
  }

  lemma AppendLast(d1: seq<Paragraph>, d2: seq<Paragraph>)
    requires d2 != []
    ensures CleanedDocument(d1 + d2) == CleanedDocument(d1 + d2[..|d2| - 1]) + Emitted(d2[|d2| - 1])
  {
    AppendInit(d1, d2);
    CleanedDocumentLast(d1 + d2, d1 + d2[..|d2| - 1], d2[|d2| - 1]);
  }

  lemma AppendInit(d1: seq<Paragraph>, d2: seq<Paragraph>)
    requires d2 != []
    ensures (d1 + d2)[..|d1 + d2| - 1] == d1 + d2[..|d2| - 1]
    ensures (d1 + d2)[|d1 + d2| - 1] == d2[|d2| - 1]
  {
  }

  lemma CleanedDocumentLast(d: seq<Paragraph>, init: seq<Paragraph>, last: Paragraph)
    requires d != [] && d[..|d| - 1] == init && d[|d| - 1] == last
    ensures CleanedDocument(d) == CleanedDocument(init) + Emitted(last)
  {
  }

  lemma ConcatAssoc(a: seq<Paragraph>, b: seq<Paragraph>, c: seq<Paragraph>)
    ensures (a + b) + c == a + (b + c)
  {
  }

  /** A one-paragraph document loses the paragraph exactly when it is an artifact. */
  lemma CleanedSingle(p: Paragraph)
    ensures CleanedDocument([p]) == if IsPureArtifact(p.text) then [] else [Rebuilt(p)]
  {
    KeepsIffNotArtifact(p);
    assert [p][..0] == [];
  }

  // ---------------------------------------------------------------------
  // What each new paragraph carries over
  // ---------------------------------------------------------------------

  /** Copying runs keeps their texts. */
  lemma {:induction false} CopiedRunsText(runs: seq<Run>)
    ensures RunsText(CopiedRuns(runs)) == RunsText(runs)
  {
    if runs != [] {
      var n := |runs| - 1;
      assert CopiedRuns(runs)[..n] == CopiedRuns(runs[..n]);
      CopiedRunsText(runs[..n]);
    }
  }

  /** A source paragraph with runs: the new paragraph has as many runs, in
      order, each with the source run's raw text, bold, italic and underline,
      and with its font name and size only when they are set; so the new
      paragraph's text is the source runs' raw text, not the cleaned text. */
  lemma RunsCarriedOver(p: Paragraph)
    requires |p.runs| > 0
    ensures var q := Rebuilt(p);
      |q.runs| == |p.runs| && q.text == RunsText(p.runs) &&
      forall k :: 0 <= k < |p.runs| ==>
        var r, s := q.runs[k], p.runs[k];
        r.text == s.text && r.bold == s.bold && r.italic == s.italic && r.underline == s.underline &&
        (r.fontName == s.fontName <==> s.fontName.None? || s.fontName.value != "") && (r.fontName.Some? ==> r.fontName == s.fontName) &&
        (r.fontSize == s.fontSize <==> s.fontSize.None? || s.fontSize.value != 0) && (r.fontSize.Some? ==> r.fontSize == s.fontSize)
  {
    CopiedRunsText(p.runs);
  }

  /** A source paragraph without runs: the new paragraph has one unformatted
      run holding the cleaned text. */
  lemma CleanedTextCarriedOver(p: Paragraph)
    requires p.runs == []
    ensures var q := Rebuilt(p);
      |q.runs| == 1 && q.runs[0] == NewRun(CleanText(p.text)) && q.text == CleanText(p.text)
  {
    assert RunsText([NewRun(CleanText(p.text))]) == RunsText([]) + CleanText(p.text);
  }

  /** Every new paragraph copies its source's alignment and style, has at
      least one run, and has exactly the text of its runs. */
  lemma ParagraphCarriedOver(p: Paragraph)
    ensures var q := Rebuilt(p);
      q.alignment == p.alignment && q.style == p.style && |q.runs| >= 1 && TextFromRuns(q)
  {
  }

  /** Every paragraph of the new document holds the text of its runs. */
  lemma CleanedDocumentTexts(doc: seq<Paragraph>)
    ensures forall j :: 0 <= j < |CleanedDocument(doc)| ==> TextFromRuns(CleanedDocument(doc)[j])
  {
    CleanedDocumentIndices(doc);
  }

  /** The paragraph loop can emit an artifact: `"___ "` is no rule, because
      of its trailing space, but its cleaned text `"___"` is one. */
  lemma CleaningCanMakeArtifact()
    ensures var p := Paragraph("___ ", None, None, []);
      Keeps(p) && IsPureArtifact(Rebuilt(p).text)
  {
    var p := Paragraph("___ ", None, None, []);
    TrailingSpaceRuleKept();
    KeepsIffNotArtifact(p);
    RuleCleaned();
    CleanedTextCarriedOver(p);
    ThreeUnderscores();
  }

  lemma ThreeUnderscores()
    ensures IsPureArtifact("___")
  {
    RuleIsArtifact('_', 3, false);
    assert Repeat('_', 3) == "___";
    assert RuleText('_', 3, false) == "___" + "";
  }

  lemma TrailingSpaceRuleKept()
    ensures !IsPureArtifact("___ ")
  {
    assert "___ "[0] == '_' && "___ "[3] == ' ';
    if IsPureArtifact("___ ") {
      UnderscoreArtifact("___ ");
      RuleChars("___ ", '_');
    }
  }

  lemma RuleCleaned()
    ensures CleanText("___ ") == "___"
  {
    assert "___ " == "___" + " ";
    CollapseAfterWord("___", " ");
    CollapseAfterRun(" ", "");
    RStripSpaces("___", " ");
  }
}
