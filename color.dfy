/**
 * The back end's coloured debug printing: ANSI style and colour codes put
 * around a text, an optional "[prefix] " in front, and the fixed styles of
 * the five log levels. Only the string that would be printed is modelled.
 */
module Color {
  import opened Wrappers
  import opened Text

  /** The escape ESC '[' parameter 'm' (Select Graphic Rendition). */
  function Sgr(parameter: string): string {
    "\U{1B}[" + parameter + "m"
  }

  const Reset: string := Sgr("0")
  const Bold: string := Sgr("1")

  /** The colour table, looked up by exact (lower-case) name. */
  function ColorCode(name: string): (code: Option<string>)
    ensures code.Some? <==>
      name in ["gray", "red", "green", "yellow", "blue", "magenta", "cyan", "white"]
  {
    if name == "gray" then Some(Sgr("90"))
    else if name == "red" then Some(Sgr("31"))
    else if name == "green" then Some(Sgr("32"))
    else if name == "yellow" then Some(Sgr("33"))
    else if name == "blue" then Some(Sgr("34"))
    else if name == "magenta" then Some(Sgr("35"))
    else if name == "cyan" then Some(Sgr("36"))
    else if name == "white" then Some(Sgr("37"))
    else None
  }

  /** An SGR escape: ESC, '[', decimal digits, 'm'. */
  predicate IsSgr(code: string) {
    |code| >= 4 && code[0] == '\U{1B}' && code[1] == '[' && code[|code| - 1] == 'm'
    && AllDigits(code[2..|code| - 1])
  }

  /** Sgr of a non-empty digit string is an SGR escape. */
  lemma SgrOf(digits: string)
    requires digits != [] && AllDigits(digits)
    ensures IsSgr(Sgr(digits))
  {
    var code := Sgr(digits);
    assert code[2..|code| - 1] == digits;
  }

  lemma ColorCodesAreSgr(name: string)
    requires ColorCode(name).Some?
    ensures IsSgr(ColorCode(name).value) && IsSgr(Bold) && IsSgr(Reset)
    ensures |ColorCode(name).value| == 5 && |Bold| == |Reset| == 4
  {
    SgrOf("1");
    SgrOf("0");
    if name == "gray" {
      SgrOf("90");
    } else if name == "red" {
      SgrOf("31");
    } else if name == "green" {
      SgrOf("32");
    } else if name == "yellow" {
      SgrOf("33");
    } else if name == "blue" {
      SgrOf("34");
    } else if name == "magenta" {
      SgrOf("35");
    } else if name == "cyan" {
      SgrOf("36");
    } else {
      assert name == "white";
      SgrOf("37");
    }
  }

  /** The colour code a `color` argument selects: a missing or empty one selects none. */
  function Selected(color: Option<string>): (code: Option<string>)
    ensures color.None? || color.value == "" ==> code.None?
    ensures color.Some? && color.value != "" ==> code == ColorCode(Lower(color.value))
  {
    if color.Some? && color.value != "" then ColorCode(Lower(color.value)) else None
  }

  /** `colorize(text, color, bold=bold)`. */
  function Colorize(text: string, color: Option<string>, bold: bool): (r: string)
    ensures !bold && Selected(color).None? ==> r == text
    ensures bold && Selected(color).None? ==> r == Bold + text + Reset
    ensures !bold && Selected(color).Some? ==> r == Selected(color).value + text + Reset
    ensures bold && Selected(color).Some? ==> r == Bold + Selected(color).value + text + Reset
  {
    var codes := (if bold then Bold else "") + (match Selected(color) case Some(c) => c case None => "");
    if codes == "" then text else codes + text + Reset
  }

  /** Colour names are matched without regard to ASCII case. */
  lemma ColorizeIgnoresCase(text: string, a: string, b: string, bold: bool)
    requires Lower(a) == Lower(b)
    ensures Colorize(text, Some(a), bold) == Colorize(text, Some(b), bold)
  {
    assert a == "" <==> b == "";
  }

  /** An unknown colour name is ignored: the result is as if no colour was given. */
  lemma UnknownColorIgnored(text: string, name: string, bold: bool)
    requires ColorCode(Lower(name)).None?
    ensures Colorize(text, Some(name), bold) == Colorize(text, None, bold)
  {
  }

  /** Styled output always carries the text unchanged between its codes and the reset. */
  lemma ColorizeEmbedsText(text: string, color: Option<string>, bold: bool)
    ensures Colorize(text, color, bold) == text
      || exists codes :: IsCodes(codes, bold) && Colorize(text, color, bold) == codes + text + Reset
  {
    var r := Colorize(text, color, bold);
    if Selected(color).Some? {
      ColorCodesAreSgr(Lower(color.value));
      var codes := (if bold then Bold else "") + Selected(color).value;
      assert Selected(color).value != Bold;
      assert IsCodes(codes, bold);
      assert r == codes + text + Reset;
    } else if bold {
      assert IsCodes(Bold, bold);
      assert r == Bold + text + Reset;
    }
  }

  /** A non-empty run of one or two escapes, the bold one first when present. */
  ghost predicate IsCodes(codes: string, bold: bool) {
    (bold && codes == Bold)
    || exists c :: IsSgr(c) && c != Bold && codes == (if bold then Bold else "") + c
  }

  /** `[prefix] message` when the prefix is non-empty, else the message. */
  function Formatted(message: string, prefix: Option<string>): (r: string)
    ensures prefix.Some? && prefix.value != "" ==> r == "[" + prefix.value + "] " + message
    ensures prefix.None? || prefix.value == "" ==> r == message
  {
    if prefix.Some? && prefix.value != "" then "[" + prefix.value + "] " + message else message
  }

  /** What `color_print` writes: the coloured formatted message followed by `end`. */
  function Printed(message: string, color: Option<string>, bold: bool, prefix: Option<string>, end: string): (r: string)
    ensures |r| >= |end|
    ensures r[..|r| - |end|] == Colorize(Formatted(message, prefix), color, bold)
    ensures r[|r| - |end|..] == end
  {
    Colorize(Formatted(message, prefix), color, bold) + end
  }

  datatype Level = Debug | Info | Ok | Warning | Error

  /** A log level's fixed colour name. */
  function LevelColor(level: Level): string {
    match level
    case Debug => "cyan"
    case Info => "blue"
    case Ok => "green"
    case Warning => "yellow"
    case Error => "red"
  }

  /** Only errors are bold. */
  predicate LevelBold(level: Level) {
    level == Error
  }

  function LevelPrefix(level: Level): string {
    match level
    case Debug => "DEBUG"
    case Info => "INFO"
    case Ok => "OK"
    case Warning => "WARN"
    case Error => "ERROR"
  }

  /** The line `print_debug`, `print_info`, `print_success`, `print_warning` or `print_error` writes. */
  function LevelLine(level: Level, message: string): string {
    Printed(message, Some(LevelColor(level)), LevelBold(level), Some(LevelPrefix(level)), "\n")
  }

  /** `print_color(message, color)` and its alias `printc`: no prefix, no bold. */
  function ColorLine(message: string, color: string): (r: string)
    ensures r == Colorize(message, Some(color), false) + "\n"
  {
    Printed(message, Some(color), false, None, "\n")
  }

  /** A name without upper-case letters is its own lower-case form. */
  lemma LowerOfLower(name: string)
    requires forall i :: 0 <= i < |name| ==> !('A' <= name[i] <= 'Z')
    ensures Lower(name) == name
  {
  }

  /** A coloured, prefixed line: bold first when asked, then the colour, around "[prefix] message". */
  lemma StyledLine(message: string, color: string, bold: bool, prefix: string, code: string)
    requires color != "" && prefix != "" && Lower(color) == color && ColorCode(color) == Some(code)
    ensures Printed(message, Some(color), bold, Some(prefix), "\n") ==
      (if bold then Bold else "") + code + ("[" + prefix + "] " + message) + Reset + "\n"
  {
  }

  /** The SGR code of each level's colour. */
  function LevelCode(level: Level): string {
    match level
    case Debug => Sgr("36")
    case Info => Sgr("34")
    case Ok => Sgr("32")
    case Warning => Sgr("33")
    case Error => Sgr("31")
  }

  /** The exact bytes each level prints: cyan DEBUG, blue INFO, green OK, yellow WARN, bold red ERROR. */
  lemma LevelLines(level: Level, message: string)
    ensures LevelLine(level, message) ==
      (if level == Error then Bold else "") + LevelCode(level) + ("[" + LevelPrefix(level) + "] " + message) + Reset + "\n"
  {
    LowerOfLower(LevelColor(level));
    StyledLine(message, LevelColor(level), LevelBold(level), LevelPrefix(level), LevelCode(level));
  }
}
