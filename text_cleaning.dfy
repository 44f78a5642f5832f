/** `clean_text` of cleaner.py (lines 18-31). It does three things in order:
    - replaces every maximal run of spaces and tabs with one space (line 21);
    - strips trailing whitespace (line 24);
    - if the text then starts with a space, rewrites its leading whitespace
      as that many spaces (lines 27-29).

    Because the collapse comes first, an indentation of several spaces comes
    out as a single space. */
module TextCleaning {
  import opened PyStr

  // ---------------------------------------------------------------------
  // Line 21: re.sub(r'[ \t]+', ' ', text)
  // ---------------------------------------------------------------------

  /** The length of the run of spaces and tabs that starts `s`. */
  function BlankRun(s: string): (n: nat)
    ensures n <= |s|
    ensures forall i :: 0 <= i < n ==> IsBlank(s[i])
    ensures n < |s| ==> !IsBlank(s[n])
  {
    if |s| > 0 && IsBlank(s[0]) then 1 + BlankRun(s[1..]) else 0
  }

  predicate NoTab(s: string) {
    forall i :: 0 <= i < |s| ==> s[i] != '\t'
  }

  /** No two spaces stand side by side from index `k` on. */
  predicate NoDoubleSpaceFrom(s: string, k: nat) {
    forall i :: k <= i < |s| - 1 ==> !(s[i] == ' ' && s[i + 1] == ' ')
  }

  /** The characters of `s` other than spaces and tabs, in order. */
  function NonBlank(s: string): string {
    if s == [] then [] else (if IsBlank(s[0]) then [] else [s[0]]) + NonBlank(s[1..])
  }

  /** Every maximal run of spaces and tabs replaced by one space. The result
      is no longer than `s`, and starts with a space exactly when `s` starts
      with a space or tab; `CollapseShape` says what else it keeps. */
  function CollapseBlanks(s: string): (r: string)
    ensures |r| <= |s|
    ensures r == [] <==> s == []
    ensures r != [] ==> (r[0] == ' ' <==> IsBlank(s[0]))
    ensures r != [] && !IsBlank(s[0]) ==> r[0] == s[0]
  {
    if s == [] then []
    else if IsBlank(s[0]) then " " + CollapseBlanks(s[BlankRun(s)..])
    else [s[0]] + CollapseBlanks(s[1..])
  }

  /** The collapse keeps every character other than spaces and tabs, in
      order; it leaves no tab and no two adjacent spaces; and every character
      it outputs is a space or a character of `s`. */
  lemma CollapseShape(s: string)
    ensures var r := CollapseBlanks(s);
      NoTab(r) && NoDoubleSpaceFrom(r, 0) && NonBlank(r) == NonBlank(s) &&
      forall i :: 0 <= i < |r| ==> r[i] == ' ' || r[i] in s
  {
    CollapseNoTab(s);
    CollapseSingleSpaces(s);
    CollapseNonBlank(s);
    CollapseFromSource(s);
  }

  /** The length of the text the collapse first steps over. */
  function Step(s: string): (n: nat)
    requires s != []
    ensures 1 <= n <= |s|
  {
    if IsBlank(s[0]) then BlankRun(s) else 1
  }

  lemma CollapseStep(s: string)
    requires s != []
    ensures CollapseBlanks(s) == (if IsBlank(s[0]) then " " else [s[0]]) + CollapseBlanks(s[Step(s)..])
  {
  }

  lemma {:induction false} CollapseNoTab(s: string)
    ensures NoTab(CollapseBlanks(s))
  {
    if s != [] {
      CollapseStep(s);
      CollapseNoTab(s[Step(s)..]);
    }
  }

  lemma {:induction false} CollapseSingleSpaces(s: string)
    ensures NoDoubleSpaceFrom(CollapseBlanks(s), 0)
  {
    if s != [] {
      var rest := CollapseBlanks(s[Step(s)..]);
      CollapseStep(s);
      CollapseSingleSpaces(s[Step(s)..]);
      var head := if IsBlank(s[0]) then " " else [s[0]];
      assert rest != [] && IsBlank(s[0]) ==> rest[0] != ' ';
      forall i | 0 <= i < |head + rest| - 1 ensures !((head + rest)[i] == ' ' && (head + rest)[i + 1] == ' ') {
        if i > 0 {
          assert (head + rest)[i] == rest[i - 1] && (head + rest)[i + 1] == rest[i];
        }
      }
    }
  }

  lemma {:induction false} CollapseNonBlank(s: string)
    ensures NonBlank(CollapseBlanks(s)) == NonBlank(s)
  {
    if s != [] {
      var n := Step(s);
      var rest := CollapseBlanks(s[n..]);
      CollapseStep(s);
      CollapseNonBlank(s[n..]);
      if IsBlank(s[0]) {
        BlankRunNonBlank(s, n);
        assert (" " + rest)[1..] == rest;
      } else {
        assert ([s[0]] + rest)[1..] == rest;
      }
    }
  }

  lemma {:induction false} CollapseFromSource(s: string)
    ensures var r := CollapseBlanks(s); forall i :: 0 <= i < |r| ==> r[i] == ' ' || r[i] in s
  {
    if s != [] {
      var n := Step(s);
      var rest := CollapseBlanks(s[n..]);
      CollapseStep(s);
      CollapseFromSource(s[n..]);
      assert forall c :: c in s[n..] ==> c in s;
      var head := if IsBlank(s[0]) then " " else [s[0]];
      forall i | 0 <= i < |head + rest| ensures (head + rest)[i] == ' ' || (head + rest)[i] in s {
        if i > 0 {
          assert (head + rest)[i] == rest[i - 1];
        }
      }
    }
  }

  /** A run of blanks contributes nothing to `NonBlank`. */
  lemma {:induction false} BlankRunNonBlank(s: string, n: nat)
    requires n <= |s|
    requires forall i :: 0 <= i < n ==> IsBlank(s[i])
    ensures NonBlank(s) == NonBlank(s[n..])
  {
    if n > 0 {
      assert s[1..][n - 1..] == s[n..];
      BlankRunNonBlank(s[1..], n - 1);
    }
  }

  // ---------------------------------------------------------------------
  // Lines 18-31: clean_text
  // ---------------------------------------------------------------------

  /** The width of the leading whitespace of `s`: `len(s) - len(s.lstrip())`. */
  function Indent(s: string): nat {
    |s| - |LStrip(s)|
  }

  /** `clean_text(text)`: no longer than its input, without tabs, and not
      ending in whitespace. */
  function CleanText(s: string): (r: string)
    ensures |r| <= |s|
    ensures NoTab(r)
    ensures r == [] || !IsSpace(r[|r| - 1])
  {
    var t := RStrip(CollapseBlanks(s));
    StrippedCollapseShape(s);
    if |t| > 0 && t[0] == ' ' then
      Reindented(t);
      Spaces(Indent(t)) + LStrip(t)
    else
      t
  }

  /** What the right-stripped collapse hands to the indentation step. */
  lemma StrippedCollapseShape(s: string)
    ensures var t := RStrip(CollapseBlanks(s));
      |t| <= |s| && NoTab(t) && (t == [] || !IsSpace(t[|t| - 1]))
  {
    var c := CollapseBlanks(s);
    CollapseNoTab(s);
    RStripPrefix(c);
    PrefixNoTab(c, |RStrip(c)|);
  }

  /** Rewriting the leading whitespace as spaces keeps the length and the end
      of the text, and brings in no tab. */
  lemma Reindented(t: string)
    requires t != [] && !IsSpace(t[|t| - 1]) && NoTab(t)
    ensures var r := Spaces(Indent(t)) + LStrip(t);
      |r| == |t| && NoTab(r) && r[|r| - 1] == t[|t| - 1]
  {
    var body := LStrip(t);
    LStripKeepsEnd(t);
    LStripSuffix(t);
    SuffixNoTab(t, |t| - |body|);
    NoTabConcat(Spaces(Indent(t)), body);
  }

  lemma SuffixNoTab(t: string, k: nat)
    requires k <= |t| && NoTab(t)
    ensures NoTab(t[k..])
  {
    assert forall i :: 0 <= i < |t| - k ==> t[k..][i] == t[k + i];
  }

  lemma PrefixNoTab(t: string, k: nat)
    requires k <= |t| && NoTab(t)
    ensures NoTab(t[..k])
  {
    assert forall i :: 0 <= i < k ==> t[..k][i] == t[i];
  }

  lemma NoTabConcat(a: string, b: string)
    requires NoTab(a) && NoTab(b)
    ensures NoTab(a + b)
  {
    assert forall i :: 0 <= i < |a| + |b| ==> (a + b)[i] == if i < |a| then a[i] else b[i - |a|];
  }
}
