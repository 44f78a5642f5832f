/** `is_pure_artifact` of cleaner.py: a paragraph is page furniture when its
    text matches one of five fixed patterns, each anchored with `^...$` and
    tried with `re.search` (no MULTILINE flag).

    Every pattern is decided here by a greedy left-to-right reading. Greedy
    reading gives the same answer as the backtracking regex because in each
    pattern a repeated class is always followed by a character outside it
    (`\s*` by `C`, `\d+` by a space or `/`, `\d*` by `\s*` or the end). The
    `*Language` lemmas check this against a description of the strings each
    pattern stands for. */
module Artifacts {
  import opened Wrappers
  import opened PyStr

  const CompilationNo := "Compilation No. "
  const CompilationDate := " Compilation date: "
  const ActTitle := "Anti-Money " + "Laundering and " + ("Counter-Terrorism " + "Financing Act 2006")

  // ---------------------------------------------------------------------
  // Reading primitives
  // ---------------------------------------------------------------------

  /** Without MULTILINE, `$` matches at the end of the text or just before a
      newline that ends it; this is the text that `$` leaves for the rest. */
  function WithoutFinalNewline(s: string): string {
    if |s| > 0 && s[|s| - 1] == '\n' then s[..|s| - 1] else s
  }

  /** Reads the literal `lit` at the start of `s`; gives what follows it. */
  function AfterLiteral(s: string, lit: string): (r: Option<string>)
    ensures r.Some? <==> |lit| <= |s| && s[..|lit|] == lit
    ensures r.Some? ==> s == lit + r.value
  {
    if |lit| <= |s| && s[..|lit|] == lit then Some(s[|lit|..]) else None
  }

  /** The length of the run of digits that starts `s`. */
  function DigitRun(s: string): (n: nat)
    ensures n <= |s| && AllDigits(s[..n])
    ensures n < |s| ==> !IsDigit(s[n])
  {
    if |s| > 0 && IsDigit(s[0]) then 1 + DigitRun(s[1..]) else 0
  }

  /** `\d+` read greedily: what follows the leading run of digits, if any. */
  function AfterDigits(s: string): Option<string> {
    var n := DigitRun(s);
    if n == 0 then None else Some(s[n..])
  }

  // ---------------------------------------------------------------------
  // The five patterns (cleaner.py, lines 8-14) and their union (line 16)
  // ---------------------------------------------------------------------

  /** `^_+$` (line 9) and `^-+$` (line 10), for `c` the repeated character. */
  predicate IsRuleOf(s: string, c: char) {
    var body := WithoutFinalNewline(s);
    |body| > 0 && forall i :: 0 <= i < |body| ==> body[i] == c
  }

  /** Reads `Compilation No\. \d+ Compilation date: \d+/\d+/` from the start
      of `t`; gives the text left for the final `\d+`. */
  function StampYear(t: string): Option<string> {
    var r1 :- AfterLiteral(t, CompilationNo);
    var r2 :- AfterDigits(r1);
    var r3 :- AfterLiteral(r2, CompilationDate);
    var r4 :- AfterDigits(r3);
    var r5 :- AfterLiteral(r4, "/");
    var r6 :- AfterDigits(r5);
    AfterLiteral(r6, "/")
  }

  /** `^\s*Compilation No\. \d+ Compilation date: \d+/\d+/\d+\s*$` (line 11).
      The pattern's text starts with `C` and ends with a digit, so its two
      `\s*` take exactly the whitespace that `strip` removes. */
  predicate IsCompilationStamp(s: string) {
    var year := StampYear(Strip(s));
    year.Some? && |year.value| > 0 && AllDigits(year.value)
  }

  /** `^\s*$` (line 12) */
  predicate IsBlankText(s: string) {
    AllSpace(s)
  }

  /** `^Anti-Money Laundering and Counter-Terrorism Financing Act 2006\s*\d*\s*$` (line 13) */
  predicate IsActFooter(s: string) {
    match AfterLiteral(s, ActTitle)
    case None => false
    case Some(r) =>
      var page := LStrip(r);
      AllSpace(page[DigitRun(page)..])
  }

  /** `is_pure_artifact(s)`: some pattern matches (line 16). */
  predicate IsPureArtifact(s: string) {
    IsRuleOf(s, '_') || IsRuleOf(s, '-') || IsCompilationStamp(s) || IsBlankText(s) || IsActFooter(s)
  }

  // ---------------------------------------------------------------------
  // The strings each pattern stands for
  // ---------------------------------------------------------------------

  /** A text `^c+$` stands for: `c` repeated, then possibly the newline `$` admits. */
  function RuleText(c: char, n: nat, newline: bool): string {
    Repeat(c, n) + (if newline then "\n" else "")
  }

  /** A text the stamp pattern stands for, by its parts. */
  datatype Stamp = Stamp(lead: string, number: string, date1: string, date2: string, date3: string, trail: string)
  {
    predicate WellFormed() {
      AllSpace(lead) && AllSpace(trail) &&
      |number| > 0 && AllDigits(number) &&
      |date1| > 0 && AllDigits(date1) &&
      |date2| > 0 && AllDigits(date2) &&
      |date3| > 0 && AllDigits(date3)
    }

    /** The stamp from `Compilation` on, followed by `z`. */
    function CoreThen(z: string): string {
      CompilationNo + (number + (CompilationDate + (date1 + ("/" + (date2 + ("/" + (date3 + z)))))))
    }

    function Text(): string {
      lead + CoreThen(trail)
    }
  }

  /** A text the footer pattern stands for, by its parts. */
  datatype ActFooter = ActFooter(gap: string, page: string, trail: string)
  {
    predicate WellFormed() {
      AllSpace(gap) && AllDigits(page) && AllSpace(trail)
    }

    function Text(): string {
      ActTitle + gap + page + trail
    }
  }

  // ---------------------------------------------------------------------
  // Lemmas: the greedy readings accept exactly those strings
  // ---------------------------------------------------------------------

  lemma {:induction false} DigitRunOf(d: string, x: string)
    requires AllDigits(d)
    requires x == [] || !IsDigit(x[0])
    ensures DigitRun(d + x) == |d|
  {
    if d != [] {
      assert (d + x)[1..] == d[1..] + x;
      DigitRunOf(d[1..], x);
    } else {
      assert d + x == x;
    }
  }

  lemma SpaceIsNotDigit(c: char)
    requires IsSpace(c)
    ensures !IsDigit(c)
  {
  }

  lemma AfterDigitsOf(d: string, x: string)
    requires |d| > 0 && AllDigits(d)
    requires x == [] || !IsDigit(x[0])
    ensures AfterDigits(d + x) == Some(x)
  {
    DigitRunOf(d, x);
    assert (d + x)[|d|..] == x;
  }

  lemma AfterLiteralOf(lit: string, x: string)
    ensures AfterLiteral(lit + x, lit) == Some(x)
  {
    assert (lit + x)[..|lit|] == lit;
    assert (lit + x)[|lit|..] == x;
  }

  /** Reading the stamp's core does not look past its last digit run: whatever
      follows is left to the final `\d+`. */
  lemma StampYearOf(st: Stamp, z: string)
    requires st.WellFormed()
    ensures StampYear(st.CoreThen(z)) == Some(st.date3 + z)
  {
    var r6 := "/" + (st.date3 + z);
    var r5 := st.date2 + r6;
    var r4 := "/" + r5;
    var r3 := st.date1 + r4;
    var r2 := CompilationDate + r3;
    var r1 := st.number + r2;
    AfterLiteralOf(CompilationNo, r1);
    AfterDigitsOf(st.number, r2);
    AfterLiteralOf(CompilationDate, r3);
    AfterDigitsOf(st.date1, r4);
    AfterLiteralOf("/", r5);
    AfterDigitsOf(st.date2, r6);
    AfterLiteralOf("/", st.date3 + z);
  }

  /** Every text of stamp shape is an artifact. */
  lemma StampAccepted(st: Stamp)
    requires st.WellFormed()
    ensures IsCompilationStamp(st.Text())
  {
    var core := st.CoreThen("");
    assert core[0] == 'C';
    assert core[|core| - 1] == st.date3[|st.date3| - 1];
    StampAppend(st, "", st.trail);
    assert st.Text() == st.lead + core + st.trail;
    StripPadded(st.lead, core, st.trail);
    StampYearOf(st, "");
    assert st.date3 + "" == st.date3;
    assert Strip(st.Text()) == core;
  }

  /** Every text the stamp reading accepts has stamp shape. */
  lemma StampParsed(s: string) returns (st: Stamp)
    requires IsCompilationStamp(s)
    ensures st.WellFormed() && st.Text() == s
  {
    var lead, trail := StripSplit(s);
    var core := StampRead(Strip(s));
    st := core.(lead := lead, trail := trail);
    StampJoin(s, Strip(s), core, lead, trail);
  }

  lemma StampJoin(s: string, t: string, core: Stamp, lead: string, trail: string)
    requires core.CoreThen("") == t
    requires s == lead + (t + trail)
    ensures core.(lead := lead, trail := trail).Text() == s
  {
    var st := core.(lead := lead, trail := trail);
    assert st.CoreThen("") == t;
    StampAppend(st, "", trail);
  }

  /** What the stamp reading takes apart, by its pieces. */
  lemma StampRead(t: string) returns (st: Stamp)
    requires StampYear(t).Some? && |StampYear(t).value| > 0 && AllDigits(StampYear(t).value)
    ensures st.lead == [] && st.trail == [] && st.WellFormed()
    ensures st.CoreThen("") == t
  {
    var r1 := AfterLiteral(t, CompilationNo).value;
    var r2 := AfterDigits(r1).value;
    var r3 := AfterLiteral(r2, CompilationDate).value;
    var r4 := AfterDigits(r3).value;
    var r5 := AfterLiteral(r4, "/").value;
    var r6 := AfterDigits(r5).value;
    var year := AfterLiteral(r6, "/").value;
    var n1, n3, n5 := DigitRun(r1), DigitRun(r3), DigitRun(r5);
    SplitAt(r1, n1);
    SplitAt(r3, n3);
    SplitAt(r5, n5);
    st := Stamp([], r1[..n1], r3[..n3], r5[..n5], year, []);
    StampFromParts(st, t, r1, r2, r3, r4, r5, r6);
  }

  /** The pieces the stamp reading splits `t` into put `t` back together. */
  lemma StampFromParts(st: Stamp, t: string, r1: string, r2: string, r3: string, r4: string, r5: string, r6: string)
    requires t == CompilationNo + r1 && r1 == st.number + r2 && r2 == CompilationDate + r3
    requires r3 == st.date1 + r4 && r4 == "/" + r5 && r5 == st.date2 + r6 && r6 == "/" + st.date3
    ensures st.CoreThen("") == t
  {
    assert st.date3 + "" == st.date3;
  }

  /** `^\s*Compilation No\. \d+ Compilation date: \d+/\d+/\d+\s*$` matches
      exactly the texts of stamp shape. */
  lemma StampLanguage(s: string)
    ensures IsCompilationStamp(s) <==> exists st: Stamp :: st.WellFormed() && st.Text() == s
  {
    if IsCompilationStamp(s) {
      var st := StampParsed(s);
    }
    forall st: Stamp | st.WellFormed() && st.Text() == s ensures IsCompilationStamp(s) {
      StampAccepted(st);
    }
  }

  lemma {:induction false} LStripAllSpace(s: string)
    requires AllSpace(s)
    ensures LStrip(s) == []
  {
    if s != [] {
      assert AllSpace(s[1..]) by {
        assert forall i :: 0 <= i < |s| - 1 ==> s[1..][i] == s[i + 1];
      }
      LStripAllSpace(s[1..]);
    }
  }

  /** Text after the stamp may be moved inside it. */
  lemma StampAppend(st: Stamp, z: string, y: string)
    ensures st.CoreThen(z) + y == st.CoreThen(z + y)
  {
    var r6 := "/" + (st.date3 + z);
    var r5 := st.date2 + r6;
    var r4 := "/" + r5;
    var r3 := st.date1 + r4;
    var r2 := CompilationDate + r3;
    var r1 := st.number + r2;
    assert (st.date3 + z) + y == st.date3 + (z + y);
    assert r6 + y == "/" + (st.date3 + (z + y));
    assert r5 + y == st.date2 + (r6 + y);
    assert r4 + y == "/" + (r5 + y);
    assert r3 + y == st.date1 + (r4 + y);
    assert r2 + y == CompilationDate + (r3 + y);
    assert r1 + y == st.number + (r2 + y);
    assert (CompilationNo + r1) + y == CompilationNo + (r1 + y);
  }

  /** `^Anti-Money ... Act 2006\s*\d*\s*$` matches exactly the texts of footer shape. */
  lemma ActFooterLanguage(s: string)
    ensures IsActFooter(s) <==> exists f: ActFooter :: f.WellFormed() && f.Text() == s
  {
    if IsActFooter(s) {
      var f := ActFooterParsed(s);
    }
    forall f: ActFooter | f.WellFormed() && f.Text() == s ensures IsActFooter(s) {
      ActFooterAccepted(f);
    }
  }

  /** Every text the footer reading accepts has footer shape. */
  lemma ActFooterParsed(s: string) returns (f: ActFooter)
    requires IsActFooter(s)
    ensures f.WellFormed() && f.Text() == s
  {
    var r := AfterLiteral(s, ActTitle).value;
    var page := LStrip(r);
    LStripSuffix(r);
    var n := DigitRun(page);
    var gap := r[..|r| - |page|];
    SplitAt(r, |r| - |page|);
    SplitAt(page, n);
    f := ActFooter(gap, page[..n], page[n..]);
    Rejoin(ActTitle, gap, page, page[..n], page[n..], r, s);
  }

  lemma Rejoin(a: string, b: string, cd: string, c: string, d: string, bcd: string, abcd: string)
    requires cd == c + d && bcd == b + cd && abcd == a + bcd
    ensures a + b + c + d == abcd
  {
    Assoc4(a, b, c, d);
  }

  lemma Assoc4(a: string, b: string, c: string, d: string)
    ensures a + (b + (c + d)) == a + b + c + d
  {
  }

  /** Every text of footer shape is an artifact. */
  lemma ActFooterAccepted(f: ActFooter)
    requires f.WellFormed()
    ensures IsActFooter(f.Text())
  {
    var r := f.gap + f.page + f.trail;
    assert f.Text() == ActTitle + r;
    AfterLiteralOf(ActTitle, r);
    PageAccepted(f);
  }

  /** The text after the title is accepted by `\s*\d*\s*$`. */
  lemma PageAccepted(f: ActFooter)
    requires f.WellFormed()
    ensures var page := LStrip(f.gap + f.page + f.trail); AllSpace(page[DigitRun(page)..])
  {
    var r := f.gap + f.page + f.trail;
    if f.page == [] {
      assert r == f.gap + f.trail;
      LStripAllSpace(r);
    } else {
      LStripPadded(f.gap, f.page, f.trail);
      if f.trail != [] {
        SpaceIsNotDigit(f.trail[0]);
      }
      DigitRunOf(f.page, f.trail);
      assert (f.page + f.trail)[|f.page|..] == f.trail;
    }
  }

  /** `^c+$` matches exactly `c` repeated at least once, with or without one
      final newline. */
  lemma RuleLanguage(s: string, c: char)
    requires c != '\n'
    ensures IsRuleOf(s, c) <==> exists n: nat, newline: bool :: n >= 1 && s == RuleText(c, n, newline)
  {
    if IsRuleOf(s, c) {
      var body := WithoutFinalNewline(s);
      var newline := |s| > 0 && s[|s| - 1] == '\n';
      assert body == Repeat(c, |body|);
      assert s == RuleText(c, |body|, newline);
    }
    forall n: nat, newline: bool | n >= 1 && s == RuleText(c, n, newline) ensures IsRuleOf(s, c) {
      var body := Repeat(c, n);
      assert s == body + (if newline then "\n" else "");
      if newline {
        assert WithoutFinalNewline(s) == body;
      } else {
        assert s == body;
      }
    }
  }
}
