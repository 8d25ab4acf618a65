/**
 * The ingestion text pipeline of be/app/utils/chunking.py: splitting
 * extracted text into (title, body) chapter segments at "Chương N" /
 * "Chapter N" heading lines, and cutting a body into overlapping fixed-size
 * character windows.
 */
module Chunking {
  import opened Text

  /** Title of the text before the first heading. */
  const IntroTitle: string := "Mở đầu"
  /** Title of the single segment returned when nothing else was produced. */
  const ContentTitle: string := "Nội dung"

  datatype Segment = Segment(title: string, body: string)

  // ---------------------------------------------------------------------------
  // The heading pattern  ^(Chương\s+\d+\b.*|Chapter\s+\d+\b.*)$  with re.I

  /** Case folding for the letters of the two keywords: ASCII, plus Ư/ư and Ơ/ơ. */
  function Fold(c: char): char {
    if c == 'Ư' then 'ư' else if c == 'Ơ' then 'ơ' else LowerChar(c)
  }

  /** `s` starts with keyword `kw` (given in lower case), ignoring case. */
  predicate StartsWithKeyword(s: string, kw: string) {
    |kw| <= |s| && FoldAll(s[..|kw|]) == kw
  }

  function FoldAll(s: string): (r: string)
    ensures |r| == |s|
  {
    if s == [] then [] else [Fold(s[0])] + FoldAll(s[1..])
  }

  /** `n` is one of the ten code points from `zero`. */
  predicate InTen(n: int, zero: int) { zero <= n < zero + 10 }

  /**
   * A character of Python's `\d` on str: a decimal digit, Unicode category
   * Nd as of Unicode 15.0, which comes in blocks of ten (the mathematical
   * digits from U+1D7CE are five contiguous blocks).
   */
  predicate IsDecimal(c: char) {
    var n := c as int;
    InTen(n, 0x0030) || InTen(n, 0x0660) || InTen(n, 0x06F0) || InTen(n, 0x07C0) || InTen(n, 0x0966)
    || InTen(n, 0x09E6) || InTen(n, 0x0A66) || InTen(n, 0x0AE6) || InTen(n, 0x0B66) || InTen(n, 0x0BE6)
    || InTen(n, 0x0C66) || InTen(n, 0x0CE6) || InTen(n, 0x0D66) || InTen(n, 0x0DE6) || InTen(n, 0x0E50)
    || InTen(n, 0x0ED0) || InTen(n, 0x0F20) || InTen(n, 0x1040) || InTen(n, 0x1090) || InTen(n, 0x17E0)
    || InTen(n, 0x1810) || InTen(n, 0x1946) || InTen(n, 0x19D0) || InTen(n, 0x1A80) || InTen(n, 0x1A90)
    || InTen(n, 0x1B50) || InTen(n, 0x1BB0) || InTen(n, 0x1C40) || InTen(n, 0x1C50) || InTen(n, 0xA620)
    || InTen(n, 0xA8D0) || InTen(n, 0xA900) || InTen(n, 0xA9D0) || InTen(n, 0xA9F0) || InTen(n, 0xAA50)
    || InTen(n, 0xABF0) || InTen(n, 0xFF10) || InTen(n, 0x104A0) || InTen(n, 0x10D30) || InTen(n, 0x11066)
    || InTen(n, 0x110F0) || InTen(n, 0x11136) || InTen(n, 0x111D0) || InTen(n, 0x112F0) || InTen(n, 0x11450)
    || InTen(n, 0x114D0) || InTen(n, 0x11650) || InTen(n, 0x116C0) || InTen(n, 0x11730) || InTen(n, 0x118E0)
    || InTen(n, 0x11950) || InTen(n, 0x11C50) || InTen(n, 0x11D50) || InTen(n, 0x11DA0) || InTen(n, 0x11F50)
    || InTen(n, 0x16A60) || InTen(n, 0x16AC0) || InTen(n, 0x16B50) || (0x1D7CE <= n <= 0x1D7FF) || InTen(n, 0x1E140)
    || InTen(n, 0x1E2F0) || InTen(n, 0x1E4F0) || InTen(n, 0x1E950) || InTen(n, 0x1FBF0)
  }

  /**
   * The non-ASCII characters that are neither letters nor numbers: the C1
   * controls, the Latin-1 punctuation and signs, the combining diacritical
   * marks, general punctuation, currency signs, arrows, mathematical and
   * technical signs, box drawing and geometric shapes, the symbol and
   * dingbat blocks (without the dingbat digits), supplemental punctuation
   * (without U+2E2F), CJK punctuation, the compatibility and small forms,
   * the byte-order mark, the full-width punctuation and the emoji blocks.
   */
  predicate IsNonAsciiNonWord(c: char) {
    var n := c as int;
    (0x80 <= n <= 0xA9) || (0xAB <= n <= 0xB1) || n == 0xB4 || (0xB6 <= n <= 0xB8)
    || n == 0xBB || n == 0xBF || n == 0xD7 || n == 0xF7
    || (0x300 <= n <= 0x36F)
    || (0x2000 <= n <= 0x206F) || (0x20A0 <= n <= 0x20C0)
    || (0x2190 <= n <= 0x23FF) || (0x2500 <= n <= 0x2775) || (0x2794 <= n <= 0x27BF)
    || (0x2E00 <= n <= 0x2E2E) || (0x2E30 <= n <= 0x2E5D)
    || (0x3001 <= n <= 0x3004) || (0x3008 <= n <= 0x3020) || n == 0x3030 || (0x303D <= n <= 0x303F)
    || (0xFE30 <= n <= 0xFE6B) || n == 0xFEFF
    || (0xFF01 <= n <= 0xFF0F) || (0xFF1A <= n <= 0xFF20) || (0xFF3B <= n <= 0xFF40) || (0xFF5B <= n <= 0xFF65)
    || (0x1F300 <= n <= 0x1FAFF)
  }

  /**
   * A character of Python's `\w` on str (`isalnum()` or `_`): ASCII
   * letters, digits and `_`, and the non-ASCII characters that are
   * neither whitespace nor in the blocks of IsNonAsciiNonWord.
   */
  predicate IsWordChar(c: char) {
    IsAsciiLetter(c) || IsAsciiDigit(c) || c == '_'
    || (c as int >= 0x80 && !IsPySpace(c) && !IsNonAsciiNonWord(c))
  }

  /** Length of the run of decimal digits at the start of `s`. */
  function DigitRun(s: string): (k: nat)
    ensures k <= |s|
  {
    if s == [] || !IsDecimal(s[0]) then 0 else 1 + DigitRun(s[1..])
  }

  /** After the keyword: whitespace, digits, then a word boundary. */
  predicate NumberedAfter(rest: string) {
    var w := LeadingSpace(Py, rest);
    var d := DigitRun(rest[w..]);
    w >= 1 && d >= 1 && (w + d == |rest| || !IsWordChar(rest[w + d]))
  }

  /** `pattern.match(s)` for the heading pattern; `.*$` accepts any line without `\n`. */
  predicate IsHeading(s: string) {
    (StartsWithKeyword(s, "chương") && NumberedAfter(s[|"chương"|..]))
    || (StartsWithKeyword(s, "chapter") && NumberedAfter(s[|"chapter"|..]))
  }

  /**
   * A "Chương" line whose keyword is followed by `w` whitespace characters
   * and `d` digits, then by the end or by a character outside `\w`.
   */
  lemma ChuongHeading(s: string, w: nat, d: nat)
    requires |s| >= 6 && FoldAll(s[..6]) == "chương"
    requires LeadingSpace(Py, s[6..]) == w && w >= 1
    requires DigitRun(s[6..][w..]) == d && d >= 1
    requires w + d == |s| - 6 || !IsWordChar(s[6 + w + d])
    ensures IsHeading(s)
  {
    assert |"chương"| == 6;
    assert StartsWithKeyword(s, "chương");
    var rest := s[6..];
    assert w + d < |rest| ==> rest[w + d] == s[6 + w + d];
    assert NumberedAfter(rest);
  }

  lemma FoldChuong(s: string)
    requires |s| >= 6 && s[..6] == "Chương"
    ensures FoldAll(s[..6]) == "chương"
  {
    assert FoldAll("g") == "g";
    assert FoldAll("ng") == "ng";
    assert FoldAll("ơng") == "ơng";
    assert FoldAll("ương") == "ương";
    assert FoldAll("hương") == "hương";
    assert FoldAll("Chương") == "chương";
  }

  lemma OneSpace(s: string)
    requires |s| >= 2 && s[0] == ' ' && !IsPySpace(s[1])
    ensures LeadingSpace(Py, s) == 1
  {
  }

  lemma OneDigit(s: string)
    requires |s| >= 1 && IsDecimal(s[0]) && (|s| == 1 || !IsDecimal(s[1]))
    ensures DigitRun(s) == 1
  {
  }

  /** `\b` holds between a digit and a dash: "Chương 1—Lịch sử" is a heading. */
  lemma DashEndsNumber()
    ensures IsHeading("Chương 1—Lịch sử")
  {
    var s := "Chương 1—Lịch sử";
    FoldChuong(s);
    OneSpace(s[6..]);
    OneDigit(s[7..]);
    assert s[6..][1..] == s[7..];
    assert !IsWordChar(s[8]);
    ChuongHeading(s, 1, 1);
  }

  /** `\d` accepts the digits of other scripts: "Chương ١" (ARABIC-INDIC ONE) is a heading. */
  lemma ArabicIndicNumber()
    ensures IsHeading("Chương \U{0661}")
  {
    var s := "Chương \U{0661}";
    FoldChuong(s);
    OneSpace(s[6..]);
    OneDigit(s[7..]);
    assert s[6..][1..] == s[7..];
    ChuongHeading(s, 1, 1);
  }

  /** No `\b` between a digit and a letter: "Chương 1a" is no heading. */
  lemma LetterContinuesNumber()
    ensures !IsHeading("Chương 1a")
  {
    var s := "Chương 1a";
    FoldChuong(s);
    OneSpace(s[6..]);
    OneDigit(s[7..]);
    assert s[6..][1..] == s[7..];
    assert IsWordChar(s[8]);
    assert s[..7] != "Chapter";
  }

  /** The scanner tests the stripped line. */
  predicate IsHeadingLine(line: string) {
    IsHeading(Strip(Py, line))
  }

  // ---------------------------------------------------------------------------
  // Reference definition of naive_split_chapters: lines grouped into blocks

  /** The lines that follow one title up to the next heading line. */
  datatype Block = Block(title: string, lines: seq<string>)

  /**
   * The blocks of a sequence of lines: one opening block titled IntroTitle,
   * then one block per heading line, titled by that line stripped.
   */
  function Blocks(lines: seq<string>): (bs: seq<Block>)
    ensures |bs| >= 1 && bs[0].title == IntroTitle
  {
    if lines == [] then [Block(IntroTitle, [])]
    else
      var prev := Blocks(lines[..|lines| - 1]);
      var l := lines[|lines| - 1];
      if IsHeadingLine(l) then prev + [Block(Strip(Py, l), [])]
      else prev[..|prev| - 1] + [Block(prev[|prev| - 1].title, prev[|prev| - 1].lines + [l])]
  }

  /** The segment a block yields: none when it holds no line. */
  function Flush(b: Block): seq<Segment> {
    if b.lines == [] then [] else [Segment(b.title, Strip(Py, Join(b.lines, "\n")))]
  }

  function FlushAll(bs: seq<Block>): seq<Segment> {
    if bs == [] then [] else FlushAll(bs[..|bs| - 1]) + Flush(bs[|bs| - 1])
  }

  /** What naive_split_chapters returns. */
  function SplitChapters(text: string): (r: seq<Segment>)
    ensures |r| >= 1
  {
    var segs := FlushAll(Blocks(SplitLines(text)));
    if segs == [] then [Segment(ContentTitle, text)] else segs
  }

  /** The scanner's state after i lines: flushed segments, current title and buffer. */
  ghost predicate ScanState(lines: seq<string>, i: nat, chapters: seq<Segment>, title: string, buf: seq<string>) {
    i <= |lines| &&
    var bs := Blocks(lines[..i]);
    chapters == FlushAll(bs[..|bs| - 1]) && bs[|bs| - 1] == Block(title, buf)
  }

  /** The line scanner of naive_split_chapters, proved to compute SplitChapters. */
  method NaiveSplitChapters(text: string) returns (chapters: seq<Segment>)
    ensures chapters == SplitChapters(text)
  {
    var lines := SplitLines(text);
    chapters := [];
    var buf: seq<string> := [];
    var currentTitle := IntroTitle;
    var i := 0;
    assert lines[..0] == [];
    while i < |lines|
      invariant i <= |lines|
      invariant ScanState(lines, i, chapters, currentTitle, buf)
    {
      var line := lines[i];
      if IsHeading(Strip(Py, line)) {
        ScanHeading(lines, i, chapters, currentTitle, buf);
        ghost var chapters', title' := if buf != [] then chapters + [Segment(currentTitle, Strip(Py, Join(buf, "\n")))] else chapters, Strip(Py, lines[i]);
        if buf != [] {
          chapters := chapters + [Segment(currentTitle, Strip(Py, Join(buf, "\n")))];
          buf := [];
        }
        currentTitle := Strip(Py, line);
        assert chapters == chapters' && currentTitle == title' && buf == [];
      } else {
        ScanBody(lines, i, chapters, currentTitle, buf);
        buf := buf + [line];
      }
      i := i + 1;
    }
    ScanEnd(lines, chapters, currentTitle, buf);
    if buf != [] {
      chapters := chapters + [Segment(currentTitle, Strip(Py, Join(buf, "\n")))];
    }
    if chapters == [] {
      chapters := chapters + [Segment(ContentTitle, text)];
    }
  }

  lemma ScanHeading(lines: seq<string>, i: nat, chapters: seq<Segment>, title: string, buf: seq<string>)
    requires i < |lines| && IsHeadingLine(lines[i])
    requires ScanState(lines, i, chapters, title, buf)
    ensures ScanState(lines, i + 1,
      if buf != [] then chapters + [Segment(title, Strip(Py, Join(buf, "\n")))] else chapters,
      Strip(Py, lines[i]), [])
  {
    var l := lines[i];
    TakeSnoc(lines, i);
    var bs := Blocks(lines[..i]);
    BlocksHeading(lines[..i], l);
    SnocParts(bs, Block(Strip(Py, l), []));
    assert FlushAll(bs) == chapters + Flush(Block(title, buf));
  }

  lemma ScanBody(lines: seq<string>, i: nat, chapters: seq<Segment>, title: string, buf: seq<string>)
    requires i < |lines| && !IsHeadingLine(lines[i])
    requires ScanState(lines, i, chapters, title, buf)
    ensures ScanState(lines, i + 1, chapters, title, buf + [lines[i]])
  {
    var l := lines[i];
    TakeSnoc(lines, i);
    var bs := Blocks(lines[..i]);
    BlocksBody(lines[..i], l);
    var init := bs[..|bs| - 1];
    SnocParts(init, Block(title, buf + [l]));
  }

  lemma ScanEnd(lines: seq<string>, chapters: seq<Segment>, title: string, buf: seq<string>)
    requires ScanState(lines, |lines|, chapters, title, buf)
    ensures chapters + Flush(Block(title, buf)) == FlushAll(Blocks(lines))
  {
    assert lines[..|lines|] == lines;
  }

  /** One more line: a heading line opens a new block titled by the stripped line. */
  lemma BlocksHeading(lines: seq<string>, l: string)
    requires IsHeadingLine(l)
    ensures Blocks(lines + [l]) == Blocks(lines) + [Block(Strip(Py, l), [])]
  {
    SnocParts(lines, l);
  }

  /** One more line: any other line joins the last block. */
  lemma BlocksBody(lines: seq<string>, l: string)
    requires !IsHeadingLine(l)
    ensures var bs := Blocks(lines);
      Blocks(lines + [l]) == bs[..|bs| - 1] + [Block(bs[|bs| - 1].title, bs[|bs| - 1].lines + [l])]
  {
    SnocParts(lines, l);
  }

  // ---------------------------------------------------------------------------
  // Properties of the segmentation

  function CountHeadings(lines: seq<string>): nat {
    if lines == [] then 0
    else CountHeadings(lines[..|lines| - 1]) + (if IsHeadingLine(lines[|lines| - 1]) then 1 else 0)
  }

  /** The lines that are not heading lines, in order. */
  function BodyLines(lines: seq<string>): seq<string> {
    if lines == [] then []
    else BodyLines(lines[..|lines| - 1]) + (if IsHeadingLine(lines[|lines| - 1]) then [] else [lines[|lines| - 1]])
  }

  /** The heading lines, stripped, in order. */
  function HeadingTitles(lines: seq<string>): seq<string> {
    if lines == [] then []
    else HeadingTitles(lines[..|lines| - 1]) + (if IsHeadingLine(lines[|lines| - 1]) then [Strip(Py, lines[|lines| - 1])] else [])
  }

  function AllBlockLines(bs: seq<Block>): seq<string> {
    if bs == [] then [] else AllBlockLines(bs[..|bs| - 1]) + bs[|bs| - 1].lines
  }

  function Titles(bs: seq<Block>): seq<string> {
    if bs == [] then [] else Titles(bs[..|bs| - 1]) + [bs[|bs| - 1].title]
  }

  /**
   * Document order and coverage: the blocks hold exactly the non-heading
   * lines, in order, and after the opening block they carry exactly the
   * stripped heading lines as titles, in order.
   */
  lemma {:induction false} BlocksCover(lines: seq<string>)
    ensures AllBlockLines(Blocks(lines)) == BodyLines(lines)
    ensures Titles(Blocks(lines)) == [IntroTitle] + HeadingTitles(lines)
    ensures |Blocks(lines)| == CountHeadings(lines) + 1
  {
    if lines != [] {
      var init := lines[..|lines| - 1];
      var l := lines[|lines| - 1];
      BlocksCover(init);
      if IsHeadingLine(l) {
        CoverHeading(Blocks(init), Blocks(lines), l, BodyLines(init), HeadingTitles(init));
      } else {
        CoverBody(Blocks(init), Blocks(lines), l, BodyLines(init), HeadingTitles(init));
      }
    }
  }

  lemma CoverHeading(prev: seq<Block>, bs: seq<Block>, l: string, body: seq<string>, heads: seq<string>)
    requires AllBlockLines(prev) == body && Titles(prev) == [IntroTitle] + heads
    requires bs == prev + [Block(Strip(Py, l), [])]
    ensures AllBlockLines(bs) == body
    ensures Titles(bs) == [IntroTitle] + (heads + [Strip(Py, l)])
    ensures |bs| == |prev| + 1
  {
    SnocParts(prev, Block(Strip(Py, l), []));
    AppendAssoc([IntroTitle], heads, [Strip(Py, l)]);
  }

  lemma CoverBody(prev: seq<Block>, bs: seq<Block>, l: string, body: seq<string>, heads: seq<string>)
    requires prev != [] && AllBlockLines(prev) == body && Titles(prev) == [IntroTitle] + heads
    requires bs == prev[..|prev| - 1] + [Block(prev[|prev| - 1].title, prev[|prev| - 1].lines + [l])]
    ensures AllBlockLines(bs) == body + [l]
    ensures Titles(bs) == [IntroTitle] + heads
    ensures |bs| == |prev|
  {
    var init := prev[..|prev| - 1];
    var last := prev[|prev| - 1];
    SnocParts(init, Block(last.title, last.lines + [l]));
    AppendAssoc(AllBlockLines(init), last.lines, [l]);
  }

  /** Every block line is a non-heading line. */
  predicate AllBody(bs: seq<Block>) {
    forall k, j :: 0 <= k < |bs| && 0 <= j < |bs[k].lines| ==> !IsHeadingLine(bs[k].lines[j])
  }

  /** Every line kept in a block is a non-heading line. */
  lemma {:induction false} BlockLinesAreBody(lines: seq<string>)
    ensures AllBody(Blocks(lines))
  {
    if lines != [] {
      var init := lines[..|lines| - 1];
      var l := lines[|lines| - 1];
      BlockLinesAreBody(init);
      if IsHeadingLine(l) {
        AllBodyHeading(Blocks(init), Blocks(lines), Strip(Py, l));
      } else {
        AllBodyBody(Blocks(init), Blocks(lines), l);
      }
    }
  }

  lemma AllBodyHeading(prev: seq<Block>, bs: seq<Block>, t: string)
    requires AllBody(prev) && bs == prev + [Block(t, [])]
    ensures AllBody(bs)
  {
    assert forall k :: 0 <= k < |prev| ==> bs[k] == prev[k];
  }

  lemma AllBodyBody(prev: seq<Block>, bs: seq<Block>, l: string)
    requires AllBody(prev) && prev != [] && !IsHeadingLine(l)
    requires bs == prev[..|prev| - 1] + [Block(prev[|prev| - 1].title, prev[|prev| - 1].lines + [l])]
    ensures AllBody(bs)
  {
    assert forall k :: 0 <= k < |prev| - 1 ==> bs[k] == prev[k];
    var last := bs[|bs| - 1];
    assert forall j :: 0 <= j < |last.lines| - 1 ==> last.lines[j] == prev[|prev| - 1].lines[j];
  }

  lemma {:induction false} FlushAllLength(bs: seq<Block>)
    ensures |FlushAll(bs)| <= |bs|
  {
    if bs != [] { FlushAllLength(bs[..|bs| - 1]); }
  }

  /**
   * Number of runs of body lines: the body lines that come first or right
   * after a heading line.
   */
  function BodyRuns(lines: seq<string>): nat {
    if lines == [] then 0
    else
      var n := |lines|;
      BodyRuns(lines[..n - 1])
      + (if !IsHeadingLine(lines[n - 1]) && (n == 1 || IsHeadingLine(lines[n - 2])) then 1 else 0)
  }

  /** The last block holds no line exactly when there is no line or the last one is a heading. */
  lemma LastBlockEmpty(lines: seq<string>)
    ensures var bs := Blocks(lines);
      bs[|bs| - 1].lines == [] <==> lines == [] || IsHeadingLine(lines[|lines| - 1])
  {
  }

  lemma FlushHeading(prev: seq<Block>, bs: seq<Block>, t: string)
    requires bs == prev + [Block(t, [])]
    ensures FlushAll(bs) == FlushAll(prev)
  {
    SnocParts(prev, Block(t, []));
  }

  lemma FlushBody(prev: seq<Block>, bs: seq<Block>, l: string)
    requires prev != []
    requires bs == prev[..|prev| - 1] + [Block(prev[|prev| - 1].title, prev[|prev| - 1].lines + [l])]
    ensures |FlushAll(bs)| == |FlushAll(prev)| + (if prev[|prev| - 1].lines == [] then 1 else 0)
  {
    var last := prev[|prev| - 1];
    SnocParts(prev[..|prev| - 1], Block(last.title, last.lines + [l]));
  }

  /** Each run of body lines is flushed as exactly one segment. */
  lemma {:induction false} FlushAllRuns(lines: seq<string>)
    ensures |FlushAll(Blocks(lines))| == BodyRuns(lines)
  {
    if lines != [] {
      var init := lines[..|lines| - 1];
      var l := lines[|lines| - 1];
      FlushAllRuns(init);
      SnocSplit(lines);
      LastBlockEmpty(init);
      assert |lines| > 1 ==> init[|init| - 1] == lines[|lines| - 2];
      if IsHeadingLine(l) {
        BlocksHeading(init, l);
        FlushHeading(Blocks(init), Blocks(lines), Strip(Py, l));
      } else {
        BlocksBody(init, l);
        FlushBody(Blocks(init), Blocks(lines), l);
      }
    }
  }

  /**
   * One segment per run of body lines, so a heading followed directly by a
   * heading or by the end of text adds none; with no body line at all, the
   * single fallback segment. Never more than the heading lines plus one.
   */
  lemma {:induction false} SegmentCount(text: string)
    ensures var lines := SplitLines(text);
      |SplitChapters(text)| == (if BodyRuns(lines) == 0 then 1 else BodyRuns(lines))
    ensures |SplitChapters(text)| <= CountHeadings(SplitLines(text)) + 1
  {
    var lines := SplitLines(text);
    BlocksCover(lines);
    FlushAllLength(Blocks(lines));
    FlushAllRuns(lines);
  }

  lemma {:induction false} FlushAllEmpty(bs: seq<Block>)
    ensures FlushAll(bs) == [] <==> forall k :: 0 <= k < |bs| ==> bs[k].lines == []
  {
    if bs != [] {
      FlushAllEmpty(bs[..|bs| - 1]);
      assert forall k :: 0 <= k < |bs| - 1 ==> bs[..|bs| - 1][k] == bs[k];
    }
  }

  lemma {:induction false} AllBlockLinesEmpty(bs: seq<Block>)
    ensures AllBlockLines(bs) == [] <==> forall k :: 0 <= k < |bs| ==> bs[k].lines == []
  {
    if bs != [] {
      AllBlockLinesEmpty(bs[..|bs| - 1]);
      assert forall k :: 0 <= k < |bs| - 1 ==> bs[..|bs| - 1][k] == bs[k];
    }
  }

  predicate AllHeadings(lines: seq<string>) {
    forall k :: 0 <= k < |lines| ==> IsHeadingLine(lines[k])
  }

  lemma AllHeadingsSnoc(init: seq<string>, lines: seq<string>, l: string)
    requires lines == init + [l]
    ensures AllHeadings(lines) <==> AllHeadings(init) && IsHeadingLine(l)
  {
    assert forall k :: 0 <= k < |init| ==> lines[k] == init[k];
    assert lines[|init|] == l;
  }

  lemma {:induction false} BodyLinesEmpty(lines: seq<string>)
    ensures BodyLines(lines) == [] <==> AllHeadings(lines)
  {
    if lines != [] {
      var init := lines[..|lines| - 1];
      BodyLinesEmpty(init);
      SnocSplit(lines);
      AllHeadingsSnoc(init, lines, lines[|lines| - 1]);
    }
  }

  /**
   * The fallback: the result is the single unstripped ("Nội dung", text)
   * segment exactly when no line of the text is a body line (the text is
   * empty or made of heading lines only).
   */
  lemma FallbackExactly(text: string)
    ensures (forall k :: 0 <= k < |SplitLines(text)| ==> IsHeadingLine(SplitLines(text)[k]))
      <==> SplitChapters(text) == [Segment(ContentTitle, text)]
  {
    var lines := SplitLines(text);
    NoSegmentsIffNoBody(lines);
    BodyLinesEmpty(lines);
    var segs := FlushAll(Blocks(lines));
    if segs != [] {
      SegmentTitles(lines);
      TitleNotContent(segs[0].title);
    }
  }

  /** No segment is flushed exactly when there is no body line. */
  lemma NoSegmentsIffNoBody(lines: seq<string>)
    ensures FlushAll(Blocks(lines)) == [] <==> BodyLines(lines) == []
  {
    BlocksCover(lines);
    AllBlockLinesEmpty(Blocks(lines));
    FlushAllEmpty(Blocks(lines));
  }

  /** A flushed segment's title is never the fallback title. */
  lemma TitleNotContent(t: string)
    requires SegmentTitle(t)
    ensures t != ContentTitle
  {
    if t != IntroTitle {
      assert StartsWithKeyword(t, "chương") || StartsWithKeyword(t, "chapter");
      var p := t[..6];
      assert FoldAll(p)[0] == Fold(p[0]) == Fold(t[0]);
    }
  }

  lemma {:induction false} NoHeadingOneBlock(lines: seq<string>)
    requires forall k :: 0 <= k < |lines| ==> !IsHeadingLine(lines[k])
    ensures Blocks(lines) == [Block(IntroTitle, lines)]
  {
    if lines != [] {
      var init := lines[..|lines| - 1];
      var l := lines[|lines| - 1];
      assert forall k :: 0 <= k < |init| ==> init[k] == lines[k];
      NoHeadingOneBlock(init);
      SnocSplit(lines);
      OneBlockStep(Blocks(init), Blocks(lines), init, l);
    }
  }

  lemma OneBlockStep(prev: seq<Block>, bs: seq<Block>, init: seq<string>, l: string)
    requires prev == [Block(IntroTitle, init)]
    requires bs == prev[..|prev| - 1] + [Block(prev[|prev| - 1].title, prev[|prev| - 1].lines + [l])]
    ensures bs == [Block(IntroTitle, init + [l])]
  {
    assert prev[..0] == [];
  }

  /** Text with at least one line and no heading line is one "Mở đầu" segment. */
  lemma NoHeadingSingleSegment(text: string)
    requires text != []
    requires forall k :: 0 <= k < |SplitLines(text)| ==> !IsHeadingLine(SplitLines(text)[k])
    ensures SplitChapters(text) == [Segment(IntroTitle, Strip(Py, Join(SplitLines(text), "\n")))]
  {
    var lines := SplitLines(text);
    SplitLinesSpec(text);
    NoHeadingOneBlock(lines);
    var b := Block(IntroTitle, lines);
    assert [b][..0] == [];
    assert FlushAll([b]) == FlushAll([]) + Flush(b);
    assert Flush(b) == [Segment(IntroTitle, Strip(Py, Join(lines, "\n")))];
  }

  /** Every flushed segment's title is "Mở đầu" or a stripped heading line. */
  predicate SegmentTitle(title: string) {
    title == IntroTitle || (IsHeading(title) && IsStripped(Py, title))
  }

  lemma {:induction false} BlockTitles(lines: seq<string>)
    ensures forall k :: 0 <= k < |Blocks(lines)| ==> SegmentTitle(Blocks(lines)[k].title)
  {
    if lines != [] {
      BlockTitles(lines[..|lines| - 1]);
      StripSpec(Py, lines[|lines| - 1]);
    }
  }

  lemma {:induction false} FlushAllShape(bs: seq<Block>)
    requires forall k :: 0 <= k < |bs| ==> SegmentTitle(bs[k].title)
    ensures forall k :: 0 <= k < |FlushAll(bs)| ==>
      SegmentTitle(FlushAll(bs)[k].title) && IsStripped(Py, FlushAll(bs)[k].body)
  {
    if bs != [] {
      assert forall k :: 0 <= k < |bs| - 1 ==> bs[..|bs| - 1][k] == bs[k];
      FlushAllShape(bs[..|bs| - 1]);
      StripSpec(Py, Join(bs[|bs| - 1].lines, "\n"));
    }
  }

  /** Bodies of flushed segments are stripped; titles are "Mở đầu" or stripped headings. */
  lemma SegmentTitles(lines: seq<string>)
    ensures forall k :: 0 <= k < |FlushAll(Blocks(lines))| ==>
      SegmentTitle(FlushAll(Blocks(lines))[k].title) && IsStripped(Py, FlushAll(Blocks(lines))[k].body)
  {
    BlockTitles(lines);
    FlushAllShape(Blocks(lines));
  }

  /** Every segment is either the fallback or a stripped body under an allowed title. */
  lemma SegmentShape(text: string)
    ensures var r := SplitChapters(text);
      r == [Segment(ContentTitle, text)]
      || forall k :: 0 <= k < |r| ==> SegmentTitle(r[k].title) && IsStripped(Py, r[k].body)
  {
    SegmentTitles(SplitLines(text));
  }

  // ---------------------------------------------------------------------------
  // chunk_by_chars

  /**
   * The raw windows the loop of chunk_by_chars appends, from position
   * `start` on: text[start:start+maxChars], then the next window begins
   * `overlap` characters before the previous one ended.
   */
  function Windows(text: string, maxChars: nat, overlap: nat, start: nat): seq<string>
    requires overlap < maxChars
    decreases |text| - start
  {
    if start >= |text| then []
    else
      var end := if start + maxChars < |text| then start + maxChars else |text|;
      [text[start..end]] + (if end == |text| then [] else Windows(text, maxChars, overlap, end - overlap))
  }

  /** A window that stops short of the end of the text, and the one that reaches it. */
  lemma WindowsMid(text: string, maxChars: nat, overlap: nat, start: nat)
    requires overlap < maxChars && start + maxChars < |text|
    ensures Windows(text, maxChars, overlap, start)
      == [text[start..start + maxChars]] + Windows(text, maxChars, overlap, start + maxChars - overlap)
  {
  }

  lemma WindowsLast(text: string, maxChars: nat, overlap: nat, start: nat)
    requires overlap < maxChars && start < |text| <= start + maxChars
    ensures Windows(text, maxChars, overlap, start) == [text[start..]]
  {
    assert text[start..|text|] == text[start..];
  }

  /** The invariant of the window loop, kept by a step that does not reach the end ... */
  lemma WindowsAdvance(text: string, maxChars: nat, overlap: nat, chunks: seq<string>, start: nat, end: nat, next: int)
    requires overlap < maxChars && end == start + maxChars < |text| && next == end - overlap
    requires chunks + Windows(text, maxChars, overlap, start) == Windows(text, maxChars, overlap, 0)
    ensures start < next < |text|
    ensures (chunks + [text[start..end]]) + Windows(text, maxChars, overlap, next) == Windows(text, maxChars, overlap, 0)
  {
    WindowsMid(text, maxChars, overlap, start);
    AppendAssoc(chunks, [text[start..end]], Windows(text, maxChars, overlap, next));
  }

  /** ... and completed by the step that does. */
  lemma WindowsFinish(text: string, maxChars: nat, overlap: nat, chunks: seq<string>, start: nat, end: nat)
    requires overlap < maxChars && start < |text| == end <= start + maxChars
    requires chunks + Windows(text, maxChars, overlap, start) == Windows(text, maxChars, overlap, 0)
    ensures chunks + [text[start..end]] == Windows(text, maxChars, overlap, 0)
  {
    WindowsLast(text, maxChars, overlap, start);
    assert text[start..end] == text[start..];
  }

  lemma WindowsDone(text: string, maxChars: nat, overlap: nat, chunks: seq<string>)
    requires overlap < maxChars
    requires chunks + Windows(text, maxChars, overlap, |text|) == Windows(text, maxChars, overlap, 0)
    ensures chunks == Windows(text, maxChars, overlap, 0)
  {
    assert chunks + [] == chunks;
  }

  /** The final comprehension: strip every window and drop the blank ones. */
  function StripNonBlank(ws: seq<string>): seq<string> {
    if ws == [] then []
    else
      var c := Strip(Py, ws[|ws| - 1]);
      StripNonBlank(ws[..|ws| - 1]) + (if c == [] then [] else [c])
  }

  /** The kept chunks are non-empty and stripped, and there are no more of them than windows. */
  lemma {:induction false} StripNonBlankSpec(ws: seq<string>)
    ensures |StripNonBlank(ws)| <= |ws|
    ensures forall k :: 0 <= k < |StripNonBlank(ws)| ==>
      StripNonBlank(ws)[k] != [] && IsStripped(Py, StripNonBlank(ws)[k])
  {
    if ws != [] {
      StripNonBlankSpec(ws[..|ws| - 1]);
      StripSpec(Py, ws[|ws| - 1]);
    }
  }

  /** What chunk_by_chars returns. */
  function ChunksOf(text: string, maxChars: nat, overlap: nat): seq<string>
    requires overlap < maxChars
  {
    StripNonBlank(Windows(text, maxChars, overlap, 0))
  }

  /** The sliding-window loop of chunk_by_chars, proved to compute ChunksOf. */
  method ChunkByChars(text: string, maxChars: nat, overlap: nat) returns (result: seq<string>)
    requires overlap < maxChars
    ensures result == ChunksOf(text, maxChars, overlap)
  {
    var chunks: seq<string> := [];
    var n := |text|;
    var start := 0;
    while start < n
      invariant 0 <= start <= n
      invariant chunks + Windows(text, maxChars, overlap, start) == Windows(text, maxChars, overlap, 0)
      decreases n - start
    {
      var end := if n < start + maxChars then n else start + maxChars;
      var w := text[start..end];
      if end == n {
        WindowsFinish(text, maxChars, overlap, chunks, start, end);
        chunks := chunks + [w];
        break;
      }
      var next := end - overlap;
      WindowsAdvance(text, maxChars, overlap, chunks, start, end, next);
      chunks := chunks + [w];
      start := if next < 0 then 0 else next;
    }
    if start == n {
      WindowsDone(text, maxChars, overlap, chunks);
    }
    result := StripNonBlank(chunks);
  }

  /** Position of window k when windows start at `start`. */
  function WindowStart(start: nat, k: nat, maxChars: nat, overlap: nat): nat
    requires overlap < maxChars
  {
    start + k * (maxChars - overlap)
  }

  lemma StartStep(start: nat, k: nat, maxChars: nat, overlap: nat)
    requires overlap < maxChars
    ensures WindowStart(start, k + 1, maxChars, overlap)
      == WindowStart(start + maxChars - overlap, k, maxChars, overlap)
  {
    assert (k + 1) * (maxChars - overlap) == k * (maxChars - overlap) + (maxChars - overlap);
  }

  /** Window k of ws starts at start + k*(maxChars-overlap), as laid out below. */
  predicate WindowAt(text: string, maxChars: nat, overlap: nat, start: nat, ws: seq<string>, k: nat)
    requires overlap < maxChars && k < |ws|
  {
    var p := WindowStart(start, k, maxChars, overlap);
    p < |text|
    && (k < |ws| - 1 ==> p + maxChars < |text| && ws[k] == text[p..p + maxChars])
    && (k == |ws| - 1 ==> |text| <= p + maxChars && ws[k] == text[p..])
  }

  predicate Shaped(text: string, maxChars: nat, overlap: nat, start: nat, ws: seq<string>)
    requires overlap < maxChars
  {
    forall k :: 0 <= k < |ws| ==> WindowAt(text, maxChars, overlap, start, ws, k)
  }

  /**
   * Closed form of the windows: window k starts at start + k*(maxChars-overlap);
   * every window but the last has exactly maxChars characters; the last one
   * is non-empty and ends at the end of the text.
   */
  lemma {:induction false} WindowsShape(text: string, maxChars: nat, overlap: nat, start: nat)
    requires overlap < maxChars
    ensures Shaped(text, maxChars, overlap, start, Windows(text, maxChars, overlap, start))
    decreases |text| - start
  {
    if start < |text| {
      if start + maxChars < |text| {
        var next := start + maxChars - overlap;
        WindowsShape(text, maxChars, overlap, next);
        WindowsMid(text, maxChars, overlap, start);
        ShapeMid(text, maxChars, overlap, start, Windows(text, maxChars, overlap, start), Windows(text, maxChars, overlap, next));
      } else {
        WindowsLast(text, maxChars, overlap, start);
        assert WindowAt(text, maxChars, overlap, start, Windows(text, maxChars, overlap, start), 0);
      }
    }
  }

  lemma ShapeMid(text: string, maxChars: nat, overlap: nat, start: nat, ws: seq<string>, rest: seq<string>)
    requires overlap < maxChars && start + maxChars < |text|
    requires ws == [text[start..start + maxChars]] + rest
    requires Shaped(text, maxChars, overlap, start + maxChars - overlap, rest)
    requires rest != []
    ensures Shaped(text, maxChars, overlap, start, ws)
  {
    forall k | 0 <= k < |ws|
      ensures WindowAt(text, maxChars, overlap, start, ws, k)
    {
      if k == 0 {
        assert WindowStart(start, 0, maxChars, overlap) == start;
      } else {
        StartStep(start, k - 1, maxChars, overlap);
        assert ws[k] == rest[k - 1];
        assert WindowAt(text, maxChars, overlap, start + maxChars - overlap, rest, k - 1);
      }
    }
  }

  /** Window sizes: exactly maxChars for every non-final window, 1..maxChars for the final one. */
  lemma WindowSizes(text: string, maxChars: nat, overlap: nat)
    requires overlap < maxChars
    ensures var ws := Windows(text, maxChars, overlap, 0);
      (forall k :: 0 <= k < |ws| - 1 ==> |ws[k]| == maxChars)
      && (ws != [] ==> 1 <= |ws[|ws| - 1]| <= maxChars)
  {
    var ws := Windows(text, maxChars, overlap, 0);
    WindowsShape(text, maxChars, overlap, 0);
    forall k | 0 <= k < |ws| - 1
      ensures |ws[k]| == maxChars
    {
      assert WindowAt(text, maxChars, overlap, 0, ws, k);
    }
    if ws != [] {
      assert WindowAt(text, maxChars, overlap, 0, ws, |ws| - 1);
    }
  }

  /** Consecutive windows share exactly `overlap` characters. */
  lemma WindowOverlap(text: string, maxChars: nat, overlap: nat, k: nat)
    requires overlap < maxChars
    requires k + 1 < |Windows(text, maxChars, overlap, 0)|
    ensures var ws := Windows(text, maxChars, overlap, 0);
      |ws[k]| == maxChars && overlap <= |ws[k + 1]|
      && ws[k][maxChars - overlap..] == ws[k + 1][..overlap]
  {
    WindowsShape(text, maxChars, overlap, 0);
    ShapedOverlap(text, maxChars, overlap, Windows(text, maxChars, overlap, 0), k);
  }

  lemma ShapedOverlap(text: string, maxChars: nat, overlap: nat, ws: seq<string>, k: nat)
    requires overlap < maxChars
    requires Shaped(text, maxChars, overlap, 0, ws) && k + 1 < |ws|
    ensures |ws[k]| == maxChars && overlap <= |ws[k + 1]|
    ensures ws[k][maxChars - overlap..] == ws[k + 1][..overlap]
  {
    assert WindowAt(text, maxChars, overlap, 0, ws, k);
    assert WindowAt(text, maxChars, overlap, 0, ws, k + 1);
    StartStep(0, k, maxChars, overlap);
    OverlapSlices(text, WindowStart(0, k, maxChars, overlap), maxChars, overlap, ws[k], ws[k + 1]);
  }

  lemma OverlapSlices(text: string, p: nat, maxChars: nat, overlap: nat, w0: string, w1: string)
    requires overlap < maxChars && p + maxChars < |text|
    requires w0 == text[p..p + maxChars]
    requires var q := p + maxChars - overlap;
      (q + maxChars < |text| && w1 == text[q..q + maxChars]) || (|text| <= q + maxChars && w1 == text[q..])
    ensures overlap <= |w1| && w0[maxChars - overlap..] == w1[..overlap]
  {
    var q := p + maxChars - overlap;
    SliceOfSlice(text, p, p + maxChars, maxChars - overlap);
    if q + maxChars < |text| {
      TakeOfSlice(text, q, q + maxChars, overlap);
    } else {
      TakeOfSlice(text, q, |text|, overlap);
    }
  }

  /** A window with its first `overlap` characters dropped. */
  function Tail(w: string, overlap: nat): string {
    if overlap <= |w| then w[overlap..] else []
  }

  function Tails(ws: seq<string>, overlap: nat): string {
    if ws == [] then [] else Tail(ws[0], overlap) + Tails(ws[1..], overlap)
  }

  /** w0 ++ w1[overlap..] ++ … ++ wk[overlap..] */
  function Reassemble(ws: seq<string>, overlap: nat): string {
    if ws == [] then [] else ws[0] + Tails(ws[1..], overlap)
  }

  lemma ReassembleCons(w: string, rest: seq<string>, overlap: nat)
    ensures Reassemble([w] + rest, overlap) == w + Tails(rest, overlap)
  {
    ConsParts(w, rest);
  }

  lemma TailsCons(ws: seq<string>, w: string, rest: seq<string>, overlap: nat)
    requires ws == [w] + rest
    ensures Tails(ws, overlap) == Tail(w, overlap) + Tails(rest, overlap)
  {
    ConsParts(w, rest);
  }

  /** Dropping the overlap of a window text[a..e] in front of the tails of the text from e on. */
  lemma TailsStep(text: string, a: nat, e: nat, ws: seq<string>, rest: seq<string>, overlap: nat)
    requires a + overlap <= e <= |text|
    requires ws == [text[a..e]] + rest
    requires Tails(rest, overlap) == text[e..]
    ensures Tails(ws, overlap) == text[a + overlap..]
  {
    var w := text[a..e];
    TailsCons(ws, w, rest, overlap);
    SliceOfSlice(text, a, e, overlap);
    assert Tail(w, overlap) == text[a + overlap..e];
    SliceConcat(text, a + overlap, e, |text|);
    assert text[a + overlap..|text|] == text[a + overlap..];
  }

  lemma TailsMid(text: string, maxChars: nat, overlap: nat, start: nat)
    requires overlap < maxChars && start + maxChars < |text|
    requires Tails(Windows(text, maxChars, overlap, start + maxChars - overlap), overlap) == text[start + maxChars..]
    ensures Tails(Windows(text, maxChars, overlap, start), overlap) == text[start + overlap..]
  {
    WindowsMid(text, maxChars, overlap, start);
    TailsStep(text, start, start + maxChars, Windows(text, maxChars, overlap, start),
      Windows(text, maxChars, overlap, start + maxChars - overlap), overlap);
  }

  lemma {:induction false} TailsOfWindows(text: string, maxChars: nat, overlap: nat, start: nat)
    requires overlap < maxChars
    requires start + overlap <= |text|
    ensures Tails(Windows(text, maxChars, overlap, start), overlap) == text[start + overlap..]
    decreases |text| - start
  {
    if start < |text| {
      if start + maxChars < |text| {
        var next := start + maxChars - overlap;
        TailsOfWindows(text, maxChars, overlap, next);
        TailsMid(text, maxChars, overlap, start);
      } else {
        TailsLast(text, maxChars, overlap, start);
      }
    }
  }

  lemma TailsLast(text: string, maxChars: nat, overlap: nat, start: nat)
    requires overlap < maxChars && start + overlap <= |text| && start < |text| <= start + maxChars
    ensures Tails(Windows(text, maxChars, overlap, start), overlap) == text[start + overlap..]
  {
    WindowsLast(text, maxChars, overlap, start);
    assert Tails([], overlap) == [] == text[|text|..];
    assert [text[start..]] == [text[start..|text|]] + [];
    TailsStep(text, start, |text|, Windows(text, maxChars, overlap, start), [], overlap);
  }

  /** Round trip: gluing the windows back together, overlaps dropped, gives the text. */
  lemma WindowsRoundTrip(text: string, maxChars: nat, overlap: nat)
    requires overlap < maxChars
    ensures Reassemble(Windows(text, maxChars, overlap, 0), overlap) == text
  {
    if text != [] {
      if maxChars < |text| {
        RoundTripLong(text, maxChars, overlap);
      } else {
        WindowsLast(text, maxChars, overlap, 0);
        assert text[0..] == text;
      }
    }
  }

  lemma RoundTripLong(text: string, maxChars: nat, overlap: nat)
    requires overlap < maxChars < |text|
    ensures Reassemble(Windows(text, maxChars, overlap, 0), overlap) == text
  {
    var first, rest := text[0..maxChars], Windows(text, maxChars, overlap, maxChars - overlap);
    WindowsMid(text, maxChars, overlap, 0);
    ReassembleCons(first, rest, overlap);
    TailsOfWindows(text, maxChars, overlap, maxChars - overlap);
    SliceConcat(text, 0, maxChars, |text|);
    assert text[maxChars..|text|] == text[maxChars..] && text[0..|text|] == text;
  }

  /** Short text: empty gives nothing; otherwise one chunk, the stripped text, unless blank. */
  lemma ShortText(text: string, maxChars: nat, overlap: nat)
    requires overlap < maxChars
    requires |text| <= maxChars
    ensures text == [] ==> ChunksOf(text, maxChars, overlap) == []
    ensures ChunksOf(text, maxChars, overlap) == (if Strip(Py, text) == [] then [] else [Strip(Py, text)])
  {
    var ws := Windows(text, maxChars, overlap, 0);
    if text != [] {
      assert text[0..|text|] == text;
      assert ws == [text];
      assert ws[..0] == [];
      assert StripNonBlank(ws) == StripNonBlank([]) + (if Strip(Py, text) == [] then [] else [Strip(Py, text)]);
    }
  }
}
