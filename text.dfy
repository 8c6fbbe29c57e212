/** Python 3 string behaviour the tracker relies on: `str.strip()`, ASCII case folding,
    decimal rendering and parsing of integers, and the splitting of a text file into lines. */
module Text {

  /** Python 3's `str.isspace()`: the characters that `strip()` removes and that the
      regular-expression class `\s` matches. */
  predicate IsSpace(c: char) {
    c == ' ' || ('\t' <= c <= '\r') || ('\U{1C}' <= c <= '\U{1F}')
    || c == '\U{85}' || c == '\U{A0}' || c == '\U{1680}'
    || ('\U{2000}' <= c <= '\U{200A}') || c == '\U{2028}' || c == '\U{2029}'
    || c == '\U{202F}' || c == '\U{205F}' || c == '\U{3000}'
  }

  predicate AllSpace(s: string) {
    forall i | 0 <= i < |s| :: IsSpace(s[i])
  }

  /** Neither the first nor the last character is whitespace. */
  predicate IsStripped(s: string) {
    s == [] || (!IsSpace(s[0]) && !IsSpace(s[|s| - 1]))
  }

  /** The index of the first non-whitespace character of `s` at or after `k`, or `|s|`. */
  function SkipSpace(s: string, k: nat): (n: nat)
    requires k <= |s|
    ensures k <= n <= |s|
    decreases |s| - k
  {
    if k < |s| && IsSpace(s[k]) then SkipSpace(s, k + 1) else k
  }

  /** The index just after the last non-whitespace character of `s` before `k`, or 0. */
  function SkipSpaceBack(s: string, k: nat): (n: nat)
    requires k <= |s|
    ensures n <= k
  {
    if k > 0 && IsSpace(s[k - 1]) then SkipSpaceBack(s, k - 1) else k
  }

  /** Python's `s.lstrip()`. */
  function TrimLeft(s: string): string {
    s[SkipSpace(s, 0)..]
  }

  /** Python's `s.rstrip()`. */
  function TrimRight(s: string): string {
    s[..SkipSpaceBack(s, |s|)]
  }

  /** Python's `s.strip()`. */
  function Strip(s: string): string {
    TrimRight(TrimLeft(s))
  }

  /** `SkipSpace` passes over whitespace only and stops at the first other character. */
  lemma {:induction false} SkipSpaceStops(s: string, k: nat)
    requires k <= |s|
    ensures forall i | k <= i < SkipSpace(s, k) :: IsSpace(s[i])
    ensures SkipSpace(s, k) < |s| ==> !IsSpace(s[SkipSpace(s, k)])
    decreases |s| - k
  {
    if k < |s| && IsSpace(s[k]) {
      SkipSpaceStops(s, k + 1);
    }
  }

  /** `SkipSpaceBack` passes over whitespace only and stops after the last other character. */
  lemma {:induction false} SkipSpaceBackStops(s: string, k: nat)
    requires k <= |s|
    ensures forall i | SkipSpaceBack(s, k) <= i < k :: IsSpace(s[i])
    ensures SkipSpaceBack(s, k) > 0 ==> !IsSpace(s[SkipSpaceBack(s, k) - 1])
  {
    if k > 0 && IsSpace(s[k - 1]) {
      SkipSpaceBackStops(s, k - 1);
    }
  }

  /** A run of whitespace up to a non-space (or the end) is exactly what `SkipSpace` skips. */
  lemma {:induction false} SkipSpaceOver(s: string, k: nat, j: nat)
    requires k <= j <= |s|
    requires forall i | k <= i < j :: IsSpace(s[i])
    requires j == |s| || !IsSpace(s[j])
    ensures SkipSpace(s, k) == j
    decreases j - k
  {
    if k < j {
      SkipSpaceOver(s, k + 1, j);
    }
  }

  /** A run of whitespace back to a non-space (or the start) is what `SkipSpaceBack` skips. */
  lemma {:induction false} SkipSpaceBackOver(s: string, j: nat, k: nat)
    requires j <= k <= |s|
    requires forall i | j <= i < k :: IsSpace(s[i])
    requires j == 0 || !IsSpace(s[j - 1])
    ensures SkipSpaceBack(s, k) == j
    decreases k - j
  {
    if j < k {
      SkipSpaceBackOver(s, j, k - 1);
    }
  }

  /** `lstrip` removes a prefix of whitespace, and nothing more. */
  lemma TrimLeftRemovesSpace(s: string)
    ensures var r := TrimLeft(s);
      |r| <= |s| && r == s[|s| - |r|..] && (r == [] || !IsSpace(r[0])) && AllSpace(s[..|s| - |r|])
  {
    SkipSpaceStops(s, 0);
  }

  /** `rstrip` removes a suffix of whitespace, and nothing more. */
  lemma TrimRightRemovesSpace(s: string)
    ensures var r := TrimRight(s);
      |r| <= |s| && r == s[..|r|] && (r == [] || !IsSpace(r[|r| - 1])) && AllSpace(s[|r|..])
  {
    SkipSpaceBackStops(s, |s|);
  }

  /** `Strip(s)` is the one stripped slice of `s` that only whitespace surrounds. */
  lemma StripIsSurroundedSlice(s: string)
    ensures IsStripped(Strip(s))
    ensures exists i, j :: 0 <= i <= j <= |s| && Strip(s) == s[i..j]
                           && AllSpace(s[..i]) && AllSpace(s[j..])
  {
    var l := TrimLeft(s);
    var r := TrimRight(l);
    TrimLeftRemovesSpace(s);
    TrimRightRemovesSpace(l);
    var i := |s| - |l|;
    assert r == s[i..i + |r|];
    assert s[i + |r|..] == l[|r|..];
    if r != [] {
      assert !IsSpace(r[0]) by { assert r[0] == l[0]; }
    }
  }

  lemma TrimLeftOfStripped(s: string)
    requires s == [] || !IsSpace(s[0])
    ensures TrimLeft(s) == s
  {
    assert SkipSpace(s, 0) == 0;
  }

  lemma TrimRightOfStripped(s: string)
    requires s == [] || !IsSpace(s[|s| - 1])
    ensures TrimRight(s) == s
  {
    assert SkipSpaceBack(s, |s|) == |s|;
  }

  /** Stripping an already-stripped text changes nothing. */
  lemma StrippedIsFixed(s: string)
    requires IsStripped(s)
    ensures Strip(s) == s
  {
    TrimLeftOfStripped(s);
    TrimRightOfStripped(s);
  }

  /** Stripping twice is stripping once. */
  lemma StripIdempotent(s: string)
    ensures Strip(Strip(s)) == Strip(s)
  {
    StripIsSurroundedSlice(s);
    StrippedIsFixed(Strip(s));
  }

  /** Whitespace in front of a text that starts with a non-space is all that `TrimLeft` removes. */
  lemma TrimLeftSkipsSpace(w: string, s: string)
    requires AllSpace(w)
    requires s == [] || !IsSpace(s[0])
    ensures TrimLeft(w + s) == s
  {
    var t := w + s;
    SkipSpaceOver(t, 0, |w|);
    assert t[|w|..] == s;
  }

  /** Whitespace after a text that ends with a non-space is all that `TrimRight` removes. */
  lemma TrimRightSkipsSpace(s: string, w: string)
    requires AllSpace(w)
    requires s == [] || !IsSpace(s[|s| - 1])
    ensures TrimRight(s + w) == s
  {
    var t := s + w;
    SkipSpaceBackOver(t, |s|, |t|);
    assert t[..|s|] == s;
  }

  /** A stripped text followed by whitespace strips back to itself. */
  lemma StripTrailingSpace(s: string, w: string)
    requires IsStripped(s) && AllSpace(w)
    ensures Strip(s + w) == s
  {
    if s == [] {
      assert s + w == w;
      TrimLeftSkipsSpace(w, []);
      assert w + [] == w;
      TrimRightOfStripped([]);
    } else {
      assert (s + w)[0] == s[0];
      TrimLeftOfStripped(s + w);
      TrimRightSkipsSpace(s, w);
    }
  }

  // ---- case folding -------------------------------------------------------------------------

  /** ASCII lower-casing, the folding `re.IGNORECASE` applies to the ASCII keywords it is used with. */
  function Lower(c: char): char {
    if 'A' <= c <= 'Z' then (c as int + 32) as char else c
  }

  /** `s` equals the lower-case `keyword` when case is ignored. */
  predicate EqualsIgnoringCase(s: string, keyword: string) {
    |s| == |keyword| && forall i | 0 <= i < |s| :: Lower(s[i]) == keyword[i]
  }

  // ---- decimal integers ---------------------------------------------------------------------

  predicate IsDigit(c: char) {
    '0' <= c <= '9'
  }

  predicate AllDigits(s: string) {
    forall i | 0 <= i < |s| :: IsDigit(s[i])
  }

  function DigitChar(d: nat): (c: char)
    requires d < 10
    ensures IsDigit(c)
  {
    ('0' as int + d) as char
  }

  /** Python's `int(s)` on a string of ASCII digits. */
  function ParseDigits(s: string): nat
    requires AllDigits(s)
  {
    if s == [] then 0
    else ParseDigits(s[..|s| - 1]) * 10 + (s[|s| - 1] as int - '0' as int)
  }

  /** Python's `str(n)` for a non-negative integer. */
  function NatToString(n: nat): (r: string)
    ensures r != [] && AllDigits(r)
  {
    if n < 10 then [DigitChar(n)] else NatToString(n / 10) + [DigitChar(n % 10)]
  }

  /** Python's `str(i)` for any integer. */
  function IntToString(i: int): (r: string)
    ensures r != []
  {
    if i < 0 then "-" + NatToString(-i) else NatToString(i)
  }

  /** Parsing undoes rendering: `int(str(n)) == n`. */
  lemma {:induction false} ParseNatToString(n: nat)
    ensures ParseDigits(NatToString(n)) == n
  {
    var s := NatToString(n);
    if n >= 10 {
      ParseNatToString(n / 10);
      assert s[..|s| - 1] == NatToString(n / 10);
    }
  }

  /** Distinct integers render differently. */
  lemma IntToStringInjective(a: int, b: int)
    requires IntToString(a) == IntToString(b)
    ensures a == b
  {
    assert IsDigit(NatToString(if a < 0 then -a else a)[0]);
    assert IsDigit(NatToString(if b < 0 then -b else b)[0]);
    if a < 0 && b < 0 {
      assert IntToString(a)[1..] == NatToString(-a);
      assert IntToString(b)[1..] == NatToString(-b);
      ParseNatToString(-a);
      ParseNatToString(-b);
    } else if a >= 0 && b >= 0 {
      ParseNatToString(a);
      ParseNatToString(b);
    }
  }

  // ---- lines of a text file -----------------------------------------------------------------

  /** Python 3's universal-newline translation when a file is read in text mode:
      "\r\n" and a lone "\r" both become "\n". */
  function Translate(t: string): (r: string)
    ensures '\r' !in r
  {
    if t == [] then []
    else if t[0] == '\r' then
      if |t| > 1 && t[1] == '\n' then "\n" + Translate(t[2..]) else "\n" + Translate(t[1..])
    else [t[0]] + Translate(t[1..])
  }

  lemma {:induction false} TranslateWithoutCarriageReturn(t: string)
    requires '\r' !in t
    ensures Translate(t) == t
  {
    if t != [] {
      assert t == [t[0]] + t[1..];
      TranslateWithoutCarriageReturn(t[1..]);
    }
  }

  /** The index just past the end of the line that starts at `k`: past its newline, or the
      end of the text for a last line without one. */
  function LineEnd(t: string, k: nat): (e: nat)
    requires k < |t|
    ensures k < e <= |t|
    decreases |t| - k
  {
    if t[k] == '\n' || k + 1 == |t| then k + 1 else LineEnd(t, k + 1)
  }

  /** The lines from index `k` on. */
  function SplitFrom(t: string, k: nat): seq<string>
    requires k <= |t|
    decreases |t| - k
  {
    if k == |t| then [] else
    var e := LineEnd(t, k);
    [t[k..e]] + SplitFrom(t, e)
  }

  /** The lines that iterating over a file with contents `t` yields: every newline ends a line
      and stays part of it; a last line without a newline is yielded as it is. */
  function SplitLines(t: string): seq<string> {
    SplitFrom(t, 0)
  }

  /** The lines of a file as Python 3 yields them when the file is read in text mode. */
  function ReadLines(t: string): seq<string> {
    SplitLines(Translate(t))
  }

  function Concat(lines: seq<string>): string {
    if lines == [] then [] else lines[0] + Concat(lines[1..])
  }

  lemma {:induction false} ConcatAppend(a: seq<string>, b: seq<string>)
    ensures Concat(a + b) == Concat(a) + Concat(b)
  {
    if a != [] {
      assert (a + b)[1..] == a[1..] + b;
      ConcatAppend(a[1..], b);
    } else {
      assert a + b == b;
    }
  }

  lemma {:induction false} ConcatSplitFrom(t: string, k: nat)
    requires k <= |t|
    ensures Concat(SplitFrom(t, k)) == t[k..]
    decreases |t| - k
  {
    if k < |t| {
      var e := LineEnd(t, k);
      ConcatSplitFrom(t, e);
      assert t[k..] == t[k..e] + t[e..];
    }
  }

  /** Joining the lines gives back the text. */
  lemma ConcatSplitLines(t: string)
    ensures Concat(SplitLines(t)) == t
  {
    ConcatSplitFrom(t, 0);
  }

  /** Text after a newline does not change where the lines before it end. */
  lemma {:induction false} LineEndBeforeAppend(a: string, b: string, k: nat)
    requires k < |a| && a[|a| - 1] == '\n'
    ensures LineEnd(a + b, k) == LineEnd(a, k)
    decreases |a| - k
  {
    if a[k] != '\n' {
      LineEndBeforeAppend(a, b, k + 1);
    }
  }

  /** The lines of `a + b` that start inside `a`, when `a` ends in a newline. */
  lemma {:induction false} SplitFromBeforeAppend(a: string, b: string, k: nat)
    requires k <= |a| && (a == [] || a[|a| - 1] == '\n')
    ensures SplitFrom(a + b, k) == SplitFrom(a, k) + SplitFrom(a + b, |a|)
    decreases |a| - k
  {
    if k < |a| {
      var e := LineEnd(a, k);
      LineEndBeforeAppend(a, b, k);
      SplitFromBeforeAppend(a, b, e);
      assert (a + b)[k..e] == a[k..e];
    }
  }

  /** Where a line of `b` ends does not depend on the text in front of `b`. */
  lemma {:induction false} LineEndAfterPrefix(a: string, b: string, k: nat)
    requires k < |b|
    ensures LineEnd(a + b, |a| + k) == |a| + LineEnd(b, k)
    decreases |b| - k
  {
    if b[k] != '\n' && k + 1 != |b| {
      LineEndAfterPrefix(a, b, k + 1);
    }
  }

  /** The lines of `a + b` that start inside `b` are the lines of `b`. */
  lemma {:induction false} SplitFromAfterPrefix(a: string, b: string, k: nat)
    requires k <= |b|
    ensures SplitFrom(a + b, |a| + k) == SplitFrom(b, k)
    decreases |b| - k
  {
    if k < |b| {
      var e := LineEnd(b, k);
      LineEndAfterPrefix(a, b, k);
      SplitFromAfterPrefix(a, b, e);
      SliceAfterPrefix(a, b, k, e);
    }
  }

  lemma SliceAfterPrefix(a: string, b: string, i: nat, j: nat)
    requires i <= j <= |b|
    ensures (a + b)[|a| + i..|a| + j] == b[i..j]
  {
    var t := a + b;
    assert |t[|a| + i..|a| + j]| == j - i;
    forall m | 0 <= m < j - i
      ensures t[|a| + i..|a| + j][m] == b[i..j][m]
    {
      assert t[|a| + i + m] == b[i + m];
    }
  }

  /** A text that ends in a newline contributes whole lines: splitting distributes over it. */
  lemma SplitLinesAppend(a: string, b: string)
    requires a == [] || a[|a| - 1] == '\n'
    ensures SplitLines(a + b) == SplitLines(a) + SplitLines(b)
  {
    SplitFromBeforeAppend(a, b, 0);
    SplitFromAfterPrefix(a, b, 0);
  }

  /** A text without newlines followed by one newline is a single line. */
  lemma SplitOneLine(s: string)
    requires '\n' !in s
    ensures SplitLines(s + "\n") == [s + "\n"]
  {
    var t := s + "\n";
    assert forall i | 0 <= i < |s| :: t[i] != '\n';
    LineEndOver(t, 0, |s|);
    assert t[0..|t|] == t && SplitFrom(t, |t|) == [];
  }

  /** A line runs up to its first newline. */
  lemma {:induction false} LineEndOver(t: string, k: nat, j: nat)
    requires k <= j < |t|
    requires forall i | k <= i < j :: t[i] != '\n'
    requires t[j] == '\n' || j + 1 == |t|
    ensures LineEnd(t, k) == j + 1
    decreases j - k
  {
    if k < j {
      LineEndOver(t, k + 1, j);
    }
  }
}
