/** The pieces of Python's `str` that the cleaner relies on: the whitespace
    and digit classes, `strip`/`lstrip`/`rstrip` without arguments, and
    `' ' * n`. Strings are sequences of Unicode scalar values. */
module PyStr {

  /** `str.isspace()` for one character, which is also the set `\s` matches
      in a `str` pattern of `re`: U+0009-U+000D, U+001C-U+0020, U+0085,
      U+00A0, U+1680, U+2000-U+200A, U+2028, U+2029, U+202F, U+205F and U+3000. */
  predicate IsSpace(c: char) {
    c == '\t' || c == '\n' || c == '\U{B}' || c == '\U{C}' || c == '\r' ||
    c == '\U{1C}' || c == '\U{1D}' || c == '\U{1E}' || c == '\U{1F}' || c == ' ' ||
    c == '\U{85}' || c == '\U{A0}' || c == '\U{1680}' ||
    c == '\U{2000}' || c == '\U{2001}' || c == '\U{2002}' || c == '\U{2003}' || c == '\U{2004}' ||
    c == '\U{2005}' || c == '\U{2006}' || c == '\U{2007}' || c == '\U{2008}' || c == '\U{2009}' ||
    c == '\U{200A}' || c == '\U{2028}' || c == '\U{2029}' || c == '\U{202F}' || c == '\U{205F}' ||
    c == '\U{3000}'
  }

  /** The character class `[ \t]`. */
  predicate IsBlank(c: char) {
    c == ' ' || c == '\t'
  }

  /** `\d`, restricted to the ASCII digits. */
  predicate IsDigit(c: char) {
    '0' <= c <= '9'
  }

  predicate AllSpace(s: string) {
    forall i :: 0 <= i < |s| ==> IsSpace(s[i])
  }

  predicate AllDigits(s: string) {
    forall i :: 0 <= i < |s| ==> IsDigit(s[i])
  }

  /** `c * n` for a one-character string `c`. */
  function Repeat(c: char, n: nat): (r: string)
    ensures |r| == n
    ensures forall i :: 0 <= i < n ==> r[i] == c
  {
    if n == 0 then "" else Repeat(c, n - 1) + [c]
  }

  /** `' ' * n` */
  function Spaces(n: nat): (r: string)
    ensures |r| == n && forall i :: 0 <= i < n ==> r[i] == ' '
    ensures AllSpace(r)
  {
    Repeat(' ', n)
  }

  /** `s.lstrip()`: the suffix of `s` left after dropping its leading whitespace. */
  function LStrip(s: string): (r: string)
    ensures |r| <= |s|
    ensures r == [] || !IsSpace(r[0])
  {
    if |s| > 0 && IsSpace(s[0]) then LStrip(s[1..]) else s
  }

  /** What `lstrip` drops is a whitespace prefix, and what it keeps is the rest. */
  lemma {:induction false} LStripSuffix(s: string)
    ensures var r := LStrip(s); r == s[|s| - |r|..] && AllSpace(s[..|s| - |r|])
  {
    if |s| > 0 && IsSpace(s[0]) {
      var u := s[1..];
      LStripSuffix(u);
      var k := |u| - |LStrip(u)|;
      assert u[k..] == s[k + 1..];
      var lead := s[..k + 1];
      forall i | 0 <= i < k + 1 ensures IsSpace(lead[i]) {
        if i > 0 {
          assert lead[i] == u[..k][i - 1];
        }
      }
    }
  }

  /** `lstrip` leaves a text that ends in a visible character ending in it. */
  lemma {:induction false} LStripKeepsEnd(s: string)
    requires s != [] && !IsSpace(s[|s| - 1])
    ensures var r := LStrip(s); r != [] && r[|r| - 1] == s[|s| - 1]
  {
    if IsSpace(s[0]) {
      var u := s[1..];
      assert |s| >= 2;
      assert u[|u| - 1] == s[|s| - 1];
      LStripKeepsEnd(u);
    }
  }

  /** `s.rstrip()`: the prefix of `s` left after dropping its trailing whitespace. */
  function RStrip(s: string): (r: string)
    ensures |r| <= |s|
    ensures r == [] || !IsSpace(r[|r| - 1])
  {
    if |s| > 0 && IsSpace(s[|s| - 1]) then RStrip(s[..|s| - 1]) else s
  }

  /** What `rstrip` drops is a whitespace suffix, and what it keeps is the rest. */
  lemma {:induction false} RStripPrefix(s: string)
    ensures var r := RStrip(s); r == s[..|r|] && AllSpace(s[|r|..])
  {
    if |s| > 0 && IsSpace(s[|s| - 1]) {
      var u := s[..|s| - 1];
      RStripPrefix(u);
      var k := |RStrip(u)|;
      assert u[..k] == s[..k];
      var trail := s[k..];
      forall i | 0 <= i < |s| - k ensures IsSpace(trail[i]) {
        if i < |s| - 1 - k {
          assert trail[i] == u[k..][i];
        }
      }
    }
  }

  /** `rstrip` leaves a text that starts with a visible character starting with it. */
  lemma {:induction false} RStripKeepsStart(x: string)
    requires x != [] && !IsSpace(x[0])
    ensures var t := RStrip(x); t != [] && t[0] == x[0]
  {
    if IsSpace(x[|x| - 1]) {
      var u := x[..|x| - 1];
      assert |x| >= 2;
      assert u[0] == x[0];
      RStripKeepsStart(u);
    }
  }

  /** `s.strip()` */
  function Strip(s: string): string {
    LStrip(RStrip(s))
  }

  /** The non-whitespace characters of `s`, in order. */
  function Visible(s: string): string {
    if s == [] then [] else (if IsSpace(s[0]) then [] else [s[0]]) + Visible(s[1..])
  }

  lemma {:induction false} VisibleConcat(a: string, b: string)
    ensures Visible(a + b) == Visible(a) + Visible(b)
  {
    if a == [] {
      assert a + b == b;
    } else {
      assert (a + b)[1..] == a[1..] + b;
      VisibleConcat(a[1..], b);
    }
  }

  /** A string has no visible character exactly when it is all whitespace. */
  lemma {:induction false} VisibleEmpty(s: string)
    ensures Visible(s) == [] <==> AllSpace(s)
  {
    if s != [] {
      VisibleEmpty(s[1..]);
      if AllSpace(s[1..]) && IsSpace(s[0]) {
        assert AllSpace(s) by {
          forall i | 0 <= i < |s| ensures IsSpace(s[i]) {
            if i > 0 { assert s[i] == s[1..][i - 1]; }
          }
        }
      }
    }
  }

  lemma SplitAt(s: string, k: nat)
    requires k <= |s|
    ensures s == s[..k] + s[k..]
  {
  }

  /** `strip` removes a whitespace prefix and a whitespace suffix. */
  lemma StripSplit(s: string) returns (lead: string, trail: string)
    ensures AllSpace(lead) && AllSpace(trail)
    ensures s == lead + (Strip(s) + trail)
  {
    var rs := RStrip(s);
    var t := LStrip(rs);
    RStripPrefix(s);
    LStripSuffix(rs);
    lead, trail := rs[..|rs| - |t|], s[|rs|..];
    Reassemble(s, rs, t);
  }

  lemma Reassemble(s: string, rs: string, t: string)
    requires |rs| <= |s| && rs == s[..|rs|]
    requires |t| <= |rs| && t == rs[|rs| - |t|..]
    ensures s == rs[..|rs| - |t|] + (t + s[|rs|..])
  {
    assert rs + s[|rs|..] == s;
    assert rs[..|rs| - |t|] + t == rs;
  }

  /** Stripping whitespace from both ends of a text that only whitespace surrounds. */
  lemma StripPadded(lead: string, t: string, trail: string)
    requires AllSpace(lead) && AllSpace(trail)
    requires t != [] && !IsSpace(t[0]) && !IsSpace(t[|t| - 1])
    ensures Strip(lead + t + trail) == t
  {
    RStripPadded(lead, t, trail);
    LStripSpaces(lead, t);
  }

  lemma RStripPadded(lead: string, t: string, trail: string)
    requires AllSpace(trail)
    requires t != [] && !IsSpace(t[|t| - 1])
    ensures RStrip(lead + t + trail) == lead + t
  {
    var lt := lead + t;
    assert lt[|lt| - 1] == t[|t| - 1];
    RStripSpaces(lt, trail);
  }

  lemma LStripPadded(lead: string, t: string, trail: string)
    requires AllSpace(lead)
    requires t != [] && !IsSpace(t[0])
    ensures LStrip(lead + t + trail) == t + trail
  {
    var tt := t + trail;
    assert tt[0] == t[0];
    assert lead + t + trail == lead + tt;
    LStripSpaces(lead, tt);
  }

  /** Appending whitespace after a non-space character is undone by `rstrip`. */
  lemma {:induction false} RStripSpaces(t: string, trail: string)
    requires AllSpace(trail)
    requires t != [] && !IsSpace(t[|t| - 1])
    ensures RStrip(t + trail) == t
  {
    if trail == [] {
      assert t + trail == t;
    } else {
      var u := t + trail;
      assert u[..|u| - 1] == t + trail[..|trail| - 1];
      RStripSpaces(t, trail[..|trail| - 1]);
    }
  }

  /** Prepending whitespace before a non-space character is undone by `lstrip`. */
  lemma {:induction false} LStripSpaces(lead: string, t: string)
    requires AllSpace(lead)
    requires t != [] && !IsSpace(t[0])
    ensures LStrip(lead + t) == t
  {
    if lead == [] {
      assert lead + t == t;
    } else {
      assert (lead + t)[1..] == lead[1..] + t;
      LStripSpaces(lead[1..], t);
    }
  }
}
