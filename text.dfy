/**
 * Character classes and string helpers shared by the Python back end and the
 * TypeScript front end: the two languages' whitespace sets, stripping,
 * joining, Python's `str.splitlines`, and decimal rendering of ids.
 */
module Text {

  /** Which language's notion of whitespace is meant. */
  datatype Flavour = Py | Js

  /** Python: `str.isspace()`, also what `re`'s `\s` matches on str patterns. */
  predicate IsPySpace(c: char) {
    ('\t' <= c <= '\r') || ('\U{1C}' <= c <= ' ') || c == '\U{85}' || c == '\U{A0}'
    || c == '\U{1680}' || ('\U{2000}' <= c <= '\U{200A}') || c == '\U{2028}' || c == '\U{2029}'
    || c == '\U{202F}' || c == '\U{205F}' || c == '\U{3000}'
  }

  /** JavaScript: the WhiteSpace and LineTerminator characters, what `\s` and `trim()` use. */
  predicate IsJsSpace(c: char) {
    ('\t' <= c <= '\r') || c == ' ' || c == '\U{A0}' || c == '\U{1680}'
    || ('\U{2000}' <= c <= '\U{200A}') || c == '\U{2028}' || c == '\U{2029}'
    || c == '\U{202F}' || c == '\U{205F}' || c == '\U{3000}' || c == '\U{FEFF}'
  }

  predicate IsSpace(f: Flavour, c: char) {
    match f
    case Py => IsPySpace(c)
    case Js => IsJsSpace(c)
  }

  predicate AllSpace(f: Flavour, s: string) {
    forall i :: 0 <= i < |s| ==> IsSpace(f, s[i])
  }

  /** A string with no whitespace at either end (what `strip()` / `trim()` produce). */
  predicate IsStripped(f: Flavour, s: string) {
    s == [] || (!IsSpace(f, s[0]) && !IsSpace(f, s[|s| - 1]))
  }

  /** Number of leading whitespace characters. */
  function LeadingSpace(f: Flavour, s: string): (k: nat)
    ensures k <= |s|
  {
    if s == [] || !IsSpace(f, s[0]) then 0 else 1 + LeadingSpace(f, s[1..])
  }

  lemma {:induction false} LeadingSpaceSpec(f: Flavour, s: string)
    ensures AllSpace(f, s[..LeadingSpace(f, s)])
    ensures LeadingSpace(f, s) < |s| ==> !IsSpace(f, s[LeadingSpace(f, s)])
  {
    if s != [] && IsSpace(f, s[0]) {
      LeadingSpaceSpec(f, s[1..]);
      LeadingStep(f, s, LeadingSpace(f, s[1..]));
    }
  }

  lemma LeadingStep(f: Flavour, s: string, k: nat)
    requires s != [] && IsSpace(f, s[0]) && k < |s|
    requires AllSpace(f, s[1..][..k])
    requires k < |s| - 1 ==> !IsSpace(f, s[1..][k])
    ensures AllSpace(f, s[..k + 1])
    ensures k + 1 < |s| ==> !IsSpace(f, s[k + 1])
  {
    var a, b := s[..k + 1], s[1..][..k];
    assert a == [s[0]] + b;
    forall i | 0 <= i < |a|
      ensures IsSpace(f, a[i])
    {
      if i > 0 {
        assert a[i] == b[i - 1];
      }
    }
    assert k + 1 < |s| ==> s[k + 1] == s[1..][k];
  }

  /** Number of trailing whitespace characters. */
  function TrailingSpace(f: Flavour, s: string): (k: nat)
    ensures k <= |s|
  {
    if s == [] || !IsSpace(f, s[|s| - 1]) then 0 else 1 + TrailingSpace(f, s[..|s| - 1])
  }

  lemma {:induction false} TrailingSpaceSpec(f: Flavour, s: string)
    ensures AllSpace(f, s[|s| - TrailingSpace(f, s)..])
    ensures TrailingSpace(f, s) < |s| ==> !IsSpace(f, s[|s| - 1 - TrailingSpace(f, s)])
  {
    if s != [] && IsSpace(f, s[|s| - 1]) {
      TrailingSpaceSpec(f, s[..|s| - 1]);
      TrailingStep(f, s, TrailingSpace(f, s[..|s| - 1]));
    }
  }

  lemma TrailingStep(f: Flavour, s: string, k: nat)
    requires s != [] && IsSpace(f, s[|s| - 1]) && k < |s|
    requires AllSpace(f, s[..|s| - 1][|s| - 1 - k..])
    requires k < |s| - 1 ==> !IsSpace(f, s[..|s| - 1][|s| - 2 - k])
    ensures AllSpace(f, s[|s| - (k + 1)..])
    ensures k + 1 < |s| ==> !IsSpace(f, s[|s| - 1 - (k + 1)])
  {
    var a, b := s[|s| - (k + 1)..], s[..|s| - 1][|s| - 1 - k..];
    assert forall i :: 0 <= i < k ==> a[i] == b[i];
  }

  /** Python `s.strip()` (flavour Py) or JavaScript `s.trim()` (flavour Js). */
  function Strip(f: Flavour, s: string): string {
    var a := LeadingSpace(f, s);
    if a == |s| then "" else
      LeadingSpaceSpec(f, s);
      TrailingBound(f, s, a);
      TrailingSpaceSpec(f, s);
      s[a..|s| - TrailingSpace(f, s)]
  }

  /** Strip removes exactly the leading and the trailing whitespace. */
  lemma StripSpec(f: Flavour, s: string)
    ensures IsStripped(f, Strip(f, s))
    ensures Strip(f, s) == [] <==> AllSpace(f, s)
    ensures Strip(f, s) != [] ==>
      LeadingSpace(f, s) < |s| - TrailingSpace(f, s) && Strip(f, s) == s[LeadingSpace(f, s)..|s| - TrailingSpace(f, s)]
  {
    LeadingSpaceSpec(f, s);
    var a := LeadingSpace(f, s);
    if a == |s| {
      assert s[..a] == s;
    } else {
      TrailingBound(f, s, a);
      StripEnds(f, s);
    }
  }

  lemma StripEnds(f: Flavour, s: string)
    requires LeadingSpace(f, s) < |s|
    ensures LeadingSpace(f, s) < |s| - TrailingSpace(f, s)
    ensures Strip(f, s) == s[LeadingSpace(f, s)..|s| - TrailingSpace(f, s)]
    ensures IsStripped(f, Strip(f, s))
  {
    var a := LeadingSpace(f, s);
    LeadingSpaceSpec(f, s);
    TrailingBound(f, s, a);
    TrailingSpaceSpec(f, s);
    StrippedSlice(f, s, a, |s| - TrailingSpace(f, s));
  }

  lemma StrippedSlice(f: Flavour, s: string, a: nat, b: nat)
    requires a < b <= |s|
    requires !IsSpace(f, s[a]) && !IsSpace(f, s[b - 1])
    ensures IsStripped(f, s[a..b])
  {
    assert s[a..b][0] == s[a];
    assert s[a..b][b - a - 1] == s[b - 1];
  }

  /** A non-space character at index a is not part of the trailing whitespace. */
  lemma {:induction false} TrailingBound(f: Flavour, s: string, a: nat)
    requires a < |s| && !IsSpace(f, s[a])
    ensures a < |s| - TrailingSpace(f, s)
    ensures !AllSpace(f, s)
    decreases |s|
  {
    if IsSpace(f, s[|s| - 1]) {
      TrailingBound(f, s[..|s| - 1], a);
    }
  }

  /** Stripping a stripped string changes nothing. */
  lemma StripStripped(f: Flavour, s: string)
    requires IsStripped(f, s)
    ensures Strip(f, s) == s
  {
    if s != [] {
      assert LeadingSpace(f, s) == 0;
      assert TrailingSpace(f, s) == 0;
    }
  }

  /** Python `sep.join(parts)`, JavaScript `parts.join(sep)`. */
  function Join(parts: seq<string>, sep: string): string {
    if |parts| == 0 then ""
    else if |parts| == 1 then parts[0]
    else Join(parts[..|parts| - 1], sep) + sep + parts[|parts| - 1]
  }

  /** Concatenation of every piece. */
  function Concat(parts: seq<string>): string {
    if parts == [] then "" else Concat(parts[..|parts| - 1]) + parts[|parts| - 1]
  }

  lemma ConcatAppend(a: seq<string>, b: seq<string>)
    ensures Concat(a + b) == Concat(a) + Concat(b)
  {
    if b == [] {
      assert a + b == a;
    } else {
      assert (a + b)[..|a + b| - 1] == a + b[..|b| - 1];
      ConcatAppend(a, b[..|b| - 1]);
    }
  }

  /**
   * Generic facts about sequence building, stated over an arbitrary element
   * type so that the solver does not reason about the elements.
   */
  lemma AppendAssoc<T>(a: seq<T>, b: seq<T>, c: seq<T>)
    ensures (a + b) + c == a + (b + c)
  {
  }

  lemma ConsParts<T>(x: T, r: seq<T>)
    ensures ([x] + r)[0] == x && ([x] + r)[1..] == r
  {
  }

  lemma SnocParts<T>(r: seq<T>, x: T)
    ensures (r + [x])[|r|] == x && (r + [x])[..|r|] == r
  {
  }

  lemma SnocSplit<T>(s: seq<T>)
    requires s != []
    ensures s == s[..|s| - 1] + [s[|s| - 1]]
  {
  }

  lemma TakeSnoc<T>(s: seq<T>, i: nat)
    requires i < |s|
    ensures s[..i + 1] == s[..i] + [s[i]]
  {
  }

  lemma SliceConcat<T>(s: seq<T>, i: nat, j: nat, k: nat)
    requires i <= j <= k <= |s|
    ensures s[i..j] + s[j..k] == s[i..k]
  {
  }

  lemma TakeOfSlice<T>(s: seq<T>, i: nat, j: nat, k: nat)
    requires i + k <= j <= |s|
    ensures s[i..j][..k] == s[i..i + k]
  {
  }

  lemma SliceOfSlice<T>(s: seq<T>, i: nat, j: nat, k: nat)
    requires i + k <= j <= |s|
    ensures s[i..j][k..] == s[i + k..j]
  {
  }

  // ---------------------------------------------------------------------------
  // Python str.splitlines()

  /** The characters Python's `splitlines` breaks lines at (`\r\n` counts as one break). */
  predicate IsLineBreak(c: char) {
    c == '\n' || c == '\r' || c == '\U{0B}' || c == '\U{0C}' || c == '\U{1C}' || c == '\U{1D}'
    || c == '\U{1E}' || c == '\U{85}' || c == '\U{2028}' || c == '\U{2029}'
  }

  predicate NoLineBreak(s: string) {
    forall i :: 0 <= i < |s| ==> !IsLineBreak(s[i])
  }

  /** Index of the first line break, or |s| when there is none. */
  function FirstBreak(s: string): (i: nat)
    ensures i <= |s|
  {
    if s == [] || IsLineBreak(s[0]) then 0 else 1 + FirstBreak(s[1..])
  }

  lemma {:induction false} FirstBreakSpec(s: string)
    ensures NoLineBreak(s[..FirstBreak(s)])
    ensures FirstBreak(s) < |s| ==> IsLineBreak(s[FirstBreak(s)])
  {
    if s != [] && !IsLineBreak(s[0]) {
      FirstBreakSpec(s[1..]);
      assert forall j :: 1 <= j < FirstBreak(s) ==> s[j] == s[1..][j - 1];
    }
  }

  /** Python `s.splitlines()`: a final line break does not open an empty last line. */
  function SplitLines(s: string): seq<string>
    decreases |s|
  {
    var i := FirstBreak(s);
    if i == |s| then (if s == [] then [] else [s])
    else
      var brk := if s[i] == '\r' && i + 1 < |s| && s[i + 1] == '\n' then 2 else 1;
      var rest := s[i + brk..];
      [s[..i]] + (if rest == [] then [] else SplitLines(rest))
  }

  /** No line holds a line break, and only the empty string has no line. */
  lemma {:induction false} SplitLinesSpec(s: string)
    ensures forall k :: 0 <= k < |SplitLines(s)| ==> NoLineBreak(SplitLines(s)[k])
    ensures SplitLines(s) == [] <==> s == []
    decreases |s|
  {
    var i := FirstBreak(s);
    FirstBreakSpec(s);
    if i < |s| {
      var brk := if s[i] == '\r' && i + 1 < |s| && s[i + 1] == '\n' then 2 else 1;
      var rest := s[i + brk..];
      if rest != [] {
        SplitLinesSpec(rest);
      }
    }
  }

  // ---------------------------------------------------------------------------
  // Digits, letters and decimal ids

  predicate IsAsciiDigit(c: char) { '0' <= c <= '9' }

  predicate IsAsciiLetter(c: char) { 'a' <= c <= 'z' || 'A' <= c <= 'Z' }

  predicate AllDigits(s: string) {
    forall i :: 0 <= i < |s| ==> IsAsciiDigit(s[i])
  }

  /** ASCII lower-casing of one character. */
  function LowerChar(c: char): (r: char)
    ensures 'A' <= c <= 'Z' ==> r as int == c as int + 32
    ensures !('A' <= c <= 'Z') ==> r == c
  {
    if 'A' <= c <= 'Z' then (c as int + 32) as char else c
  }

  function Lower(s: string): (r: string)
    ensures |r| == |s|
    ensures forall i :: 0 <= i < |s| ==> r[i] == LowerChar(s[i])
  {
    seq(|s|, i requires 0 <= i < |s| => LowerChar(s[i]))
  }

  /** ASCII upper-casing of one character. */
  function UpperChar(c: char): (r: char)
    ensures 'a' <= c <= 'z' ==> r as int == c as int - 32
    ensures !('a' <= c <= 'z') ==> r == c
  {
    if 'a' <= c <= 'z' then (c as int - 32) as char else c
  }

  function Upper(s: string): (r: string)
    ensures |r| == |s|
    ensures forall i :: 0 <= i < |s| ==> r[i] == UpperChar(s[i])
  {
    seq(|s|, i requires 0 <= i < |s| => UpperChar(s[i]))
  }

  function DigitChar(d: nat): (c: char)
    requires d < 10
    ensures IsAsciiDigit(c)
  {
    ('0' as int + d) as char
  }

  function DigitValue(c: char): (d: nat)
    requires IsAsciiDigit(c)
    ensures d < 10
  {
    c as int - '0' as int
  }

  /** Python `str(n)` for a non-negative integer. */
  function NatToString(n: nat): (r: string)
    ensures |r| >= 1
    ensures AllDigits(r)
    ensures |r| > 1 ==> r[0] != '0'
  {
    if n < 10 then [DigitChar(n)] else NatToString(n / 10) + [DigitChar(n % 10)]
  }

  /** Python `int(s)` on a string of ASCII digits. */
  function ParseNat(s: string): nat
    requires AllDigits(s)
  {
    if s == [] then 0 else ParseNat(s[..|s| - 1]) * 10 + DigitValue(s[|s| - 1])
  }

  /** Decimal rendering is undone by parsing, so distinct ids give distinct strings. */
  lemma {:induction false} ParseNatToString(n: nat)
    ensures ParseNat(NatToString(n)) == n
  {
    if n >= 10 {
      var s := NatToString(n);
      assert s[..|s| - 1] == NatToString(n / 10);
      ParseNatToString(n / 10);
    }
  }

  lemma NatToStringInjective(m: nat, n: nat)
    ensures NatToString(m) == NatToString(n) ==> m == n
  {
    ParseNatToString(m);
    ParseNatToString(n);
  }
}
