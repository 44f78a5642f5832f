/** `clean_text` (cleaner.py, lines 18-31) on particular texts. */
module TextCleaningExamples {
  import opened PyStr
  import opened TextCleaning
  import opened TextCleaningFacts

  /** An indented enumerated clause keeps one space of its indentation. */
  lemma IndentedClauseExample()
    ensures CleanText("   (a)  Term   here  ") == " (a) Term here"
  {
    ClauseIndent();
    ClauseStartsVisible();
    ClauseCleaned();
    IndentedThen("   (a)  Term   here  ", "(a)  Term   here  ", "(a) Term here");
    ClauseJoined();
  }

  lemma IndentedThen(s: string, rest: string, r: string)
    requires 0 < BlankRun(s) < |s| && s[BlankRun(s)..] == rest && !IsSpace(rest[0])
    requires CleanText(rest) == r
    ensures CleanText(s) == " " + r
  {
    LeadingBlankRun(s);
  }

  lemma ClauseIndent()
    ensures BlankRun("   (a)  Term   here  ") == 3
    ensures "   (a)  Term   here  "[3..] == "(a)  Term   here  "
  {
    assert "   (a)  Term   here  " == "   " + "(a)  Term   here  ";
    BlankRunOf("   ", "(a)  Term   here  ");
  }

  lemma ClauseStartsVisible()
    ensures !IsSpace("(a)  Term   here  "[0])
  {
  }

  lemma ClauseJoined()
    ensures " " + "(a) Term here" == " (a) Term here"
  {
  }

  lemma ClauseCleaned()
    ensures CleanText("(a)  Term   here  ") == "(a) Term here"
  {
    ClauseStripped();
    NoLeadingBlank("(a)  Term   here  ");
  }

  lemma ClauseStripped()
    ensures RStrip(CollapseBlanks("(a)  Term   here  ")) == "(a) Term here"
  {
    ClauseCollapsed();
    ClauseRStripped();
  }

  lemma ClauseRStripped()
    ensures RStrip("(a) Term here ") == "(a) Term here"
  {
    RStripSpaces("(a) Term here", " ");
    assert "(a) Term here" + " " == "(a) Term here ";
  }

  lemma ClauseCollapsed()
    ensures CollapseBlanks("(a)  Term   here  ") == "(a) Term here "
  {
    assert "(a)" + ("  " + ("Term" + ("   " + ("here" + "  ")))) == "(a)  Term   here  ";
    assert "(a)" + (" " + ("Term" + (" " + ("here" + " ")))) == "(a) Term here ";
    ClauseTailCollapsed();
    CollapseWordRun("(a)", "  ", "Term" + ("   " + ("here" + "  ")));
  }

  lemma ClauseTailCollapsed()
    ensures CollapseBlanks("Term" + ("   " + ("here" + "  "))) == "Term" + (" " + ("here" + " "))
  {
    CollapseWordRun("here", "  ", "");
    assert "here" + ("  " + "") == "here" + "  ";
    CollapseWordRun("Term", "   ", "here" + "  ");
  }

  /** A word, then a run of blanks, collapse to the word and one space. */
  lemma CollapseWordRun(w: string, b: string, rest: string)
    requires forall i :: 0 <= i < |w| ==> !IsBlank(w[i])
    requires b != [] && forall i :: 0 <= i < |b| ==> IsBlank(b[i])
    requires rest == [] || !IsBlank(rest[0])
    ensures CollapseBlanks(w + (b + rest)) == w + (" " + CollapseBlanks(rest))
  {
    CollapseAfterWord(w, b + rest);
    CollapseAfterRun(b, rest);
  }

  /** Cleaning is not idempotent once other whitespace sits in the
      indentation: a newline after the first space becomes a second space,
      which the next cleaning collapses. */
  lemma NotIdempotentExample()
    ensures CleanText(" \nx") == "  x"
    ensures CleanText("  x") == " x"
  {
    NewlineIndentCleaned();
    SpacedX();
  }

  lemma NewlineIndentCleaned()
    ensures CleanText(" \nx") == "  x"
  {
    NewlineIndentCollapsed();
    NewlineIndentStripped();
    NewlineIndentWidth();
    IndentedCleaned(" \nx", " \nx", "x", "  x");
  }

  lemma NewlineIndentWidth()
    ensures Spaces(|" \nx"| - |"x"|) + "x" == "  x"
  {
    assert Spaces(2) == "  ";
  }

  /** `clean_text` on a text whose collapsed, right-stripped form is indented. */
  lemma IndentedCleaned(s: string, t: string, body: string, r: string)
    requires RStrip(CollapseBlanks(s)) == t && |t| > 0 && t[0] == ' '
    requires LStrip(t) == body && Spaces(|t| - |body|) + body == r
    ensures CleanText(s) == r
  {
  }

  lemma NewlineIndentCollapsed()
    ensures RStrip(CollapseBlanks(" \nx")) == " \nx"
  {
    CollapseKeeps(" \nx");
    RStripSpaces(" \nx", []);
    assert " \nx" + [] == " \nx";
  }

  lemma NewlineIndentStripped()
    ensures LStrip(" \nx") == "x"
  {
    LStripSpaces(" \n", "x");
    assert " \n" + "x" == " \nx";
  }

  lemma SpacedX()
    ensures CleanText("  x") == " x"
  {
    assert "  " + "x" == "  x";
    BlankRunOf("  ", "x");
    assert "  x"[2..] == "x";
    assert IsCleanForm("x");
    CleanFormKept("x");
    LeadingBlankRun("  x");
  }
}
