/** What the five patterns of `is_pure_artifact` (cleaner.py, lines 6-16)
    accept and reject, stated on the whole predicate. */
module ArtifactFacts {
  import opened Wrappers
  import opened PyStr
  import opened Artifacts

  // ---------------------------------------------------------------------
  // Blank and rule texts
  // ---------------------------------------------------------------------

  /** The empty text and whitespace-only texts are artifacts. */
  lemma BlankIsArtifact(s: string)
    requires AllSpace(s)
    ensures IsPureArtifact(s)
  {
  }

  /** A run of one or more underscores or hyphens, with or without the final
      newline `$` admits, is an artifact. */
  lemma RuleIsArtifact(c: char, n: nat, newline: bool)
    requires c == '_' || c == '-'
    requires n >= 1
    ensures IsPureArtifact(RuleText(c, n, newline))
  {
    RuleLanguage(RuleText(c, n, newline), c);
  }

  /** A text holding an underscore is an artifact only as an underscore rule:
      the other four patterns have no underscore in them. */
  lemma UnderscoreArtifact(s: string)
    requires '_' in s && IsPureArtifact(s)
    ensures IsRuleOf(s, '_')
  {
    var i :| 0 <= i < |s| && s[i] == '_';
    assert !IsBlankText(s) by {
      assert !IsSpace(s[i]);
    }
    assert !IsRuleOf(s, '-') by {
      if IsRuleOf(s, '-') {
        RuleChars(s, '-');
      }
    }
    assert !IsCompilationStamp(s) by {
      if IsCompilationStamp(s) {
        var st := StampParsed(s);
        NoUnderscoreInStamp(st);
      }
    }
    assert !IsActFooter(s) by {
      if IsActFooter(s) {
        var f := ActFooterParsed(s);
        NoUnderscoreInFooter(f);
      }
    }
  }

  /** Every character of a rule is the rule's character or the final newline. */
  lemma RuleChars(s: string, c: char)
    requires IsRuleOf(s, c)
    ensures forall i :: 0 <= i < |s| ==> s[i] == c || s[i] == '\n'
  {
    var body := WithoutFinalNewline(s);
    forall i | 0 <= i < |s| ensures s[i] == c || s[i] == '\n' {
      if i < |body| {
        assert s[i] == body[i];
      }
    }
  }

  lemma NoUnderscoreInStamp(st: Stamp)
    requires st.WellFormed()
    ensures '_' !in st.Text()
  {
    UnderscoreNotInNo();
    UnderscoreNotInDate();
    NoUnderscoreInSpace(st.lead);
    NoUnderscoreInSpace(st.trail);
    NoUnderscoreInDigits(st.number);
    NoUnderscoreInDigits(st.date1);
    NoUnderscoreInDigits(st.date2);
    NoUnderscoreInDigits(st.date3);
  }

  lemma NoUnderscoreInFooter(f: ActFooter)
    requires f.WellFormed()
    ensures '_' !in f.Text()
  {
    UnderscoreNotInTitle();
    NoUnderscoreInSpace(f.gap);
    NoUnderscoreInDigits(f.page);
    NoUnderscoreInSpace(f.trail);
  }

  lemma NoUnderscoreInSpace(s: string)
    requires AllSpace(s)
    ensures '_' !in s
  {
  }

  lemma NoUnderscoreInDigits(s: string)
    requires AllDigits(s)
    ensures '_' !in s
  {
  }

  lemma UnderscoreNotInNo()
    ensures '_' !in CompilationNo
  {
  }

  lemma UnderscoreNotInDate()
    ensures '_' !in CompilationDate
  {
  }

  lemma UnderscoreNotInTitle()
    ensures '_' !in ActTitle
  {
    UnderscoreNotInTitleStart();
    UnderscoreNotInTitleEnd();
    NotInEither('_', "Anti-Money " + "Laundering and ", "Counter-Terrorism " + "Financing Act 2006");
  }

  lemma UnderscoreNotInTitleStart()
    ensures '_' !in "Anti-Money " + "Laundering and "
  {
    NotInEither('_', "Anti-Money ", "Laundering and ");
  }

  lemma UnderscoreNotInTitleEnd()
    ensures '_' !in "Counter-Terrorism " + "Financing Act 2006"
  {
    NotInEither('_', "Counter-Terrorism ", "Financing Act 2006");
  }

  lemma NotInEither(c: char, a: string, b: string)
    requires c !in a && c !in b
    ensures c !in a + b
  {
  }

  // ---------------------------------------------------------------------
  // Examples
  // ---------------------------------------------------------------------

  /** Mixing the rule characters, or indenting a rule, defeats `^_+$` and `^-+$`. */
  lemma MixedRulesAreKept()
    ensures !IsPureArtifact("_-")
    ensures !IsPureArtifact("  ___")
  {
    assert "_-"[0] == '_' && "_-"[1] == '-';
    assert "  ___"[2] == '_' && "  ___"[0] == ' ';
    if IsPureArtifact("_-") {
      UnderscoreArtifact("_-");
      RuleChars("_-", '_');
    }
    if IsPureArtifact("  ___") {
      UnderscoreArtifact("  ___");
      RuleChars("  ___", '_');
    }
  }

  /** The stamp of the example, padded with any whitespace, is an artifact. */
  lemma StampExample(p: string, q: string)
    requires AllSpace(p) && AllSpace(q)
    ensures IsPureArtifact(p + ("Compilation No. 12" + " Compilation date: 01/02/2020") + q)
  {
    var st := Stamp(p, "12", "01", "02", "2020", q);
    var core := st.CoreThen("");
    assert core == Stamp("", "12", "01", "02", "2020", "").CoreThen("");
    ExampleCore();
    StampAppend(st, "", q);
    assert st.Text() == p + (core + q);
    assert p + (core + q) == p + core + q;
    StampAccepted(st);
  }

  lemma ExampleCore()
    ensures Stamp("", "12", "01", "02", "2020", "").CoreThen("") == "Compilation No. 12" + " Compilation date: 01/02/2020"
  {
    assert "01" + ("/" + ("02" + ("/" + ("2020" + "")))) == "01/02/2020";
    assert CompilationDate + "01/02/2020" == " Compilation date: 01/02/2020";
    assert "12" + (CompilationDate + "01/02/2020") == ("12" + CompilationDate) + "01/02/2020";
    assert CompilationNo + ("12" + " Compilation date: 01/02/2020") == (CompilationNo + "12") + " Compilation date: 01/02/2020";
  }

  /** The stamp's number without its date is not an artifact. */
  lemma StampNumberAloneIsKept()
    ensures !IsPureArtifact("Compilation No. 12")
  {
    var s := "Compilation No. 12";
    assert s[0] == 'C' && s[0] != '_' && s[0] != '-';
    NumberAloneStripped();
    NumberAloneRead();
    assert !IsActFooter(s) by {
      assert |ActTitle| > |s|;
    }
  }

  lemma NumberAloneStripped()
    ensures Strip("Compilation No. 12") == "Compilation No. 12"
  {
    var s := "Compilation No. 12";
    assert s[0] == 'C' && s[17] == '2';
    LStripSpaces([], s);
    RStripSpaces(s, []);
    assert [] + s == s && s + [] == s;
  }

  lemma NumberAloneRead()
    ensures StampYear("Compilation No. 12") == None
  {
    assert "Compilation No. 12" == CompilationNo + "12";
    AfterLiteralOf(CompilationNo, "12");
    AfterDigitsOf("12", []);
    assert "12" + [] == "12";
  }

  /** The running footer with a page number is an artifact. */
  lemma FooterExample()
    ensures IsPureArtifact(ActTitle + " 12")
  {
    var f := ActFooter(" ", "12", "");
    assert f.Text() == ActTitle + " 12";
    ActFooterAccepted(f);
  }

  // ---------------------------------------------------------------------
  // Anchoring of the stamp pattern
  // ---------------------------------------------------------------------

  /** Between its `\s*` anchors the stamp pattern starts with `C` and ends
      with a digit: so does the visible text of every stamp. */
  lemma StampVisibleEdges(s: string)
    requires IsCompilationStamp(s)
    ensures var v := Visible(s); |v| > 0 && v[0] == 'C' && IsDigit(v[|v| - 1])
  {
    var st := StampParsed(s);
    ShapeVisibleEdges(st, s);
  }

  lemma ShapeVisibleEdges(st: Stamp, s: string)
    requires st.WellFormed() && st.Text() == s
    ensures var v := Visible(s); |v| > 0 && v[0] == 'C' && IsDigit(v[|v| - 1])
  {
    var core := st.CoreThen("");
    StampAppend(st, "", st.trail);
    assert st.Text() == st.lead + core + st.trail;
    VisiblePadded(st.lead, core, st.trail);
    CoreVisibleEdges(st);
  }

  lemma CoreVisibleEdges(st: Stamp)
    requires st.WellFormed()
    ensures var v := Visible(st.CoreThen("")); |v| > 0 && v[0] == 'C' && IsDigit(v[|v| - 1])
  {
    var core := st.CoreThen("");
    assert core[0] == 'C';
    assert core[|core| - 1] == st.date3[|st.date3| - 1];
    VisibleLast(core);
  }

  /** Whitespace around a text adds nothing visible. */
  lemma VisiblePadded(lead: string, t: string, trail: string)
    requires AllSpace(lead) && AllSpace(trail)
    ensures Visible(lead + t + trail) == Visible(t)
  {
    VisibleConcat(lead + t, trail);
    VisibleConcat(lead, t);
    VisibleEmpty(lead);
    VisibleEmpty(trail);
  }

  /** A text whose last character is visible keeps it last in its visible text. */
  lemma VisibleLast(t: string)
    requires t != [] && !IsSpace(t[|t| - 1])
    ensures Visible(t) == Visible(t[..|t| - 1]) + [t[|t| - 1]]
  {
    var c := t[|t| - 1];
    assert t == t[..|t| - 1] + [c];
    VisibleConcat(t[..|t| - 1], [c]);
    assert Visible([c]) == [c] + Visible([]);
  }

  /** Text in front of a stamp whose first visible character is not the
      `C` of `Compilation` defeats `^\s*`. */
  lemma TextBeforeStamp(x: string, s: string)
    requires Visible(x) != [] && Visible(x)[0] != 'C'
    ensures !IsCompilationStamp(x + s)
  {
    VisibleConcat(x, s);
    if IsCompilationStamp(x + s) {
      StampVisibleEdges(x + s);
    }
  }

  /** Text after a stamp whose last visible character is not a digit defeats
      `\d+\s*$`. */
  lemma TextAfterStamp(s: string, y: string)
    requires Visible(y) != [] && !IsDigit(Visible(y)[|Visible(y)| - 1])
    ensures !IsCompilationStamp(s + y)
  {
    VisibleConcat(s, y);
    if IsCompilationStamp(s + y) {
      StampVisibleEdges(s + y);
    }
  }
}
