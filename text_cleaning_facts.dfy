/** What `clean_text` (cleaner.py, lines 18-31) keeps, drops and promises. */
module TextCleaningFacts {
  import opened PyStr
  import opened TextCleaning

  // ---------------------------------------------------------------------
  // Visible characters survive
  // ---------------------------------------------------------------------

  /** `clean_text` keeps every non-whitespace character, in order, and adds none. */
  lemma CleanTextVisible(s: string)
    ensures Visible(CleanText(s)) == Visible(s)
  {
    var c := CollapseBlanks(s);
    var t := RStrip(c);
    CollapseVisible(s);
    RStripVisible(c);
    if |t| > 0 && t[0] == ' ' {
      var body := LStrip(t);
      LStripVisible(t);
      VisibleConcat(Spaces(Indent(t)), body);
      VisibleEmpty(Spaces(Indent(t)));
    }
  }

  lemma CollapseVisible(s: string)
    ensures Visible(CollapseBlanks(s)) == Visible(s)
  {
    CollapseShape(s);
    VisibleNonBlank(s);
    VisibleNonBlank(CollapseBlanks(s));
  }

  /** Dropping spaces and tabs leaves the visible characters alone. */
  lemma {:induction false} VisibleNonBlank(s: string)
    ensures Visible(NonBlank(s)) == Visible(s)
  {
    if s != [] {
      VisibleNonBlank(s[1..]);
      var head := if IsBlank(s[0]) then [] else [s[0]];
      VisibleConcat(head, NonBlank(s[1..]));
      if !IsBlank(s[0]) {
        assert Visible(head) == (if IsSpace(s[0]) then [] else [s[0]]) + Visible([]);
      }
    }
  }

  lemma RStripVisible(s: string)
    ensures Visible(RStrip(s)) == Visible(s)
  {
    var t := RStrip(s);
    RStripPrefix(s);
    assert s == t + s[|t|..];
    VisibleConcat(t, s[|t|..]);
    VisibleEmpty(s[|t|..]);
  }

  lemma LStripVisible(s: string)
    ensures Visible(LStrip(s)) == Visible(s)
  {
    var t := LStrip(s);
    var k := |s| - |t|;
    LStripSuffix(s);
    assert s == s[..k] + t;
    VisibleConcat(s[..k], t);
    VisibleEmpty(s[..k]);
  }

  /** `clean_text` empties exactly the texts made only of whitespace. */
  lemma CleanTextEmpty(s: string)
    ensures CleanText(s) == [] <==> AllSpace(s)
  {
    var r := CleanText(s);
    CleanTextVisible(s);
    VisibleEmpty(s);
    VisibleEmpty(r);
  }

  // ---------------------------------------------------------------------
  // Spacing
  // ---------------------------------------------------------------------

  /** After its leading whitespace, the cleaned text never has two spaces side by side. */
  lemma CleanTextSingleSpaces(s: string)
    ensures var r := CleanText(s); NoDoubleSpaceFrom(r, Indent(r))
  {
    var c := CollapseBlanks(s);
    var t := RStrip(c);
    CollapseSingleSpaces(s);
    RStripPrefix(c);
    PrefixNoDoubleSpace(c, |t|);
    if |t| > 0 && t[0] == ' ' {
      IndentedText(t);
      SameTailNoDoubleSpace(Spaces(Indent(t)) + LStrip(t), t, Indent(t));
    }
  }

  lemma PrefixNoDoubleSpace(c: string, k: nat)
    requires k <= |c| && NoDoubleSpaceFrom(c, 0)
    ensures NoDoubleSpaceFrom(c[..k], 0)
  {
    var t := c[..k];
    forall i | 0 <= i < |t| - 1 ensures !(t[i] == ' ' && t[i + 1] == ' ') {
      assert t[i] == c[i] && t[i + 1] == c[i + 1];
    }
  }

  lemma SameTailNoDoubleSpace(r: string, t: string, k: nat)
    requires |r| == |t| && k <= |t| && r[k..] == t[k..] && NoDoubleSpaceFrom(t, 0)
    ensures NoDoubleSpaceFrom(r, k)
  {
    forall i | k <= i < |r| - 1 ensures !(r[i] == ' ' && r[i + 1] == ' ') {
      assert r[i] == r[k..][i - k] && r[i + 1] == r[k..][i + 1 - k];
    }
  }

  /** Rewriting the leading whitespace as spaces keeps its width and the rest of the text. */
  lemma IndentedText(t: string)
    requires t != [] && !IsSpace(t[|t| - 1])
    ensures var body := LStrip(t); var r := Spaces(Indent(t)) + body;
      |r| == |t| && Indent(r) == Indent(t) && r[Indent(t)..] == t[Indent(t)..]
  {
    var body := LStrip(t);
    var k := Indent(t);
    LStripKeepsEnd(t);
    LStripSuffix(t);
    LStripSpaces(Spaces(k), body);
    assert (Spaces(k) + body)[k..] == body;
  }

  /** A leading run of spaces and tabs before a visible character becomes
      exactly one space; the rest is cleaned as if it stood alone. */
  lemma LeadingBlankRun(s: string)
    requires 0 < BlankRun(s) < |s| && !IsSpace(s[BlankRun(s)])
    ensures CleanText(s) == " " + CleanText(s[BlankRun(s)..])
  {
    var rest := s[BlankRun(s)..];
    var x := CollapseBlanks(rest);
    assert CollapseBlanks(s) == " " + x;
    NoLeadingBlank(rest);
    RStripKeepsStart(x);
    RStripAfterSpace(x);
    SingleIndent(" " + RStrip(x));
  }

  lemma RStripAfterSpace(x: string)
    requires x != [] && !IsSpace(x[0])
    ensures RStrip(" " + x) == " " + RStrip(x)
  {
    var tx := RStrip(x);
    RStripKeepsStart(x);
    RStripPrefix(x);
    assert " " + x == (" " + tx) + x[|tx|..];
    RStripSpaces(" " + tx, x[|tx|..]);
  }

  /** A text that does not start with a space or tab keeps its leading
      whitespace as it is: it is only collapsed and right-stripped. */
  lemma NoLeadingBlank(s: string)
    requires s == [] || !IsBlank(s[0])
    ensures CleanText(s) == RStrip(CollapseBlanks(s))
  {
    var c := CollapseBlanks(s);
    var t := RStrip(c);
    if t != [] {
      RStripPrefix(c);
      assert t[0] == c[0];
    }
  }

  // ---------------------------------------------------------------------
  // The texts clean_text leaves alone, and idempotence
  // ---------------------------------------------------------------------

  /** The shape of a cleaned text: no tab, no two adjacent spaces, no
      trailing whitespace, and an indentation of at most one space. */
  predicate IsCleanForm(x: string) {
    NoTab(x) && NoDoubleSpaceFrom(x, 0) && (x == [] || !IsSpace(x[|x| - 1])) &&
    (|x| > 0 && x[0] == ' ' ==> |x| >= 2 && !IsSpace(x[1]))
  }

  /** `clean_text` leaves a text unchanged exactly when it has the cleaned shape. */
  lemma CleanTextFixpoint(x: string)
    ensures CleanText(x) == x <==> IsCleanForm(x)
  {
    if IsCleanForm(x) {
      CleanFormKept(x);
    }
    if CleanText(x) == x {
      FixpointIsCleanForm(x);
    }
  }

  lemma CleanFormKept(x: string)
    requires IsCleanForm(x)
    ensures CleanText(x) == x
  {
    CollapseKeeps(x);
    if x != [] {
      RStripSpaces(x, []);
      assert x + [] == x;
      if x[0] == ' ' {
        SingleIndent(x);
      }
    }
  }

  lemma FixpointIsCleanForm(x: string)
    requires CleanText(x) == x
    ensures IsCleanForm(x)
  {
    var c := CollapseBlanks(x);
    var t := RStrip(c);
    assert |t| == |x| by {
      if |t| > 0 && t[0] == ' ' {
        IndentedText(t);
      }
    }
    CollapseLength(x);
    CollapseShape(x);
    assert t == c;
  }

  /** Collapsing keeps the length only of a text it does not change. */
  lemma {:induction false} CollapseLength(x: string)
    requires NoTab(x) && |CollapseBlanks(x)| == |x|
    ensures CollapseBlanks(x) == x
  {
    if x != [] {
      var n := BlankRun(x);
      if IsBlank(x[0]) {
        assert n == 1 by {
          assert |CollapseBlanks(x[n..])| <= |x| - n;
        }
        CollapseLength(x[1..]);
      } else {
        CollapseLength(x[1..]);
      }
    }
  }

  /** Collapsing leaves alone a text with no tab and no two adjacent spaces. */
  lemma {:induction false} CollapseKeeps(x: string)
    requires NoTab(x) && NoDoubleSpaceFrom(x, 0)
    ensures CollapseBlanks(x) == x
  {
    if x != [] {
      assert NoDoubleSpaceFrom(x[1..], 0) by {
        forall i | 0 <= i < |x[1..]| - 1 ensures !(x[1..][i] == ' ' && x[1..][i + 1] == ' ') {
          assert x[1..][i] == x[i + 1] && x[1..][i + 1] == x[i + 2];
        }
      }
      CollapseKeeps(x[1..]);
      if IsBlank(x[0]) {
        assert BlankRun(x) == 1;
      }
    }
  }

  /** A single leading space before a visible character is its own rewrite. */
  lemma SingleIndent(x: string)
    requires |x| >= 2 && x[0] == ' ' && !IsSpace(x[1])
    ensures Spaces(Indent(x)) + LStrip(x) == x
  {
    var b := x[1..];
    assert LStrip(b) == b;
    assert LStrip(x) == b;
    assert Spaces(1) == " ";
    assert " " + b == x;
  }

  /** Every whitespace character of `s` is a space or a tab. */
  predicate OnlyBlankWhitespace(s: string) {
    forall i :: 0 <= i < |s| && IsSpace(s[i]) ==> IsBlank(s[i])
  }

  /** On texts whose only whitespace is spaces and tabs, cleaning twice is cleaning once. */
  lemma CleanTextIdempotent(s: string)
    requires OnlyBlankWhitespace(s)
    ensures CleanText(CleanText(s)) == CleanText(s)
  {
    var t := RStrip(CollapseBlanks(s));
    CollapsedCleanForm(s);
    if |t| > 0 && t[0] == ' ' {
      SingleIndent(t);
    }
    assert CleanText(s) == t;
    CleanFormKept(t);
  }

  /** Without whitespace other than spaces and tabs, the collapsed and
      right-stripped text already has the cleaned shape. */
  lemma CollapsedCleanForm(s: string)
    requires OnlyBlankWhitespace(s)
    ensures IsCleanForm(RStrip(CollapseBlanks(s)))
  {
    var c := CollapseBlanks(s);
    var t := RStrip(c);
    CollapseShape(s);
    RStripPrefix(c);
    PrefixNoTab(c, |t|);
    PrefixNoDoubleSpace(c, |t|);
    if |t| > 0 && t[0] == ' ' {
      assert |t| >= 2;
      assert t[1] == c[1];
      assert c[1] == ' ' || c[1] in s;
    }
  }

  // ---------------------------------------------------------------------
  // Collapsing piece by piece
  // ---------------------------------------------------------------------

  /** A word with no space or tab in it passes through the collapse. */
  lemma {:induction false} CollapseAfterWord(w: string, rest: string)
    requires forall i :: 0 <= i < |w| ==> !IsBlank(w[i])
    ensures CollapseBlanks(w + rest) == w + CollapseBlanks(rest)
  {
    if w != [] {
      assert (w + rest)[1..] == w[1..] + rest;
      CollapseAfterWord(w[1..], rest);
    } else {
      assert w + rest == rest;
    }
  }

  /** A whole run of spaces and tabs collapses to one space. */
  lemma CollapseAfterRun(b: string, rest: string)
    requires b != [] && forall i :: 0 <= i < |b| ==> IsBlank(b[i])
    requires rest == [] || !IsBlank(rest[0])
    ensures CollapseBlanks(b + rest) == " " + CollapseBlanks(rest)
  {
    BlankRunOf(b, rest);
    assert (b + rest)[|b|..] == rest;
  }

  lemma {:induction false} BlankRunOf(b: string, rest: string)
    requires forall i :: 0 <= i < |b| ==> IsBlank(b[i])
    requires rest == [] || !IsBlank(rest[0])
    ensures BlankRun(b + rest) == |b|
  {
    if b != [] {
      assert (b + rest)[1..] == b[1..] + rest;
      BlankRunOf(b[1..], rest);
    } else {
      assert b + rest == rest;
    }
  }
}
