/**
  Diff lines as `difflib.Differ` writes them and as the diff engine reads
  them: a two-character marker followed by the line's text. The engine
  recognises a line by comparing its first two characters with the three
  change markers; anything else is treated as an unchanged (context) line.
  Also the four colour codes and their no-colour fallback.
 */
module DiffLines {
  import opened PyStr

  /** What a diff line says about its text: an intraline hint, a line only in
      the source, a line only in the candidate, or a shared line. */
  datatype Tag = Hint | Removed | Added | Context

  /** The marker `difflib.Differ` puts in front of each kind of line. */
  function Marker(t: Tag): string
  {
    match t
    case Hint => "? "
    case Removed => "- "
    case Added => "+ "
    case Context => "  "
  }

  /** The engine's dispatch on `line[:2]`. Only the three change markers are
      recognised; every other line, including one shorter than two
      characters, counts as context. */
  function TagOf(line: string): (t: Tag)
    ensures t != Context ==> Take(line, 2) == Marker(t)
    ensures t == Context ==>
      Take(line, 2) != Marker(Hint) && Take(line, 2) != Marker(Removed) && Take(line, 2) != Marker(Added)
  {
    if |line| < 2 || line[1] != ' ' then Context
    else if line[0] == '?' then Hint
    else if line[0] == '-' then Removed
    else if line[0] == '+' then Added
    else Context
  }

  /** A line is tagged with a change marker exactly when it starts with that
      marker, and is context exactly when it starts with none of the three. */
  lemma TagOfMarkers(line: string)
    ensures TagOf(line) != Context ==> Marker(TagOf(line)) <= line
    ensures TagOf(line) == Context <==>
      !(Marker(Hint) <= line || Marker(Removed) <= line || Marker(Added) <= line)
  {
    if |line| >= 2 {
      assert Take(line, 2) == line[..2];
    }
  }

  /** The engine's `line[2:]`: the text after the marker, whatever the marker
      was, and the empty string for a line shorter than two characters. */
  function Body(line: string): (b: string)
    ensures |b| == Max(0, |line| - 2)
    ensures |line| >= 2 ==> line == line[..2] + b
  {
    Drop(line, 2)
  }

  /** Writes a diff line the way `difflib.Differ` does. */
  function Encode(t: Tag, body: string): string
  {
    Marker(t) + body
  }

  /** Reading back a line written with any marker gives the marker's tag and
      the original text. */
  lemma DecodeEncode(t: Tag, body: string)
    ensures TagOf(Encode(t, body)) == t
    ensures Body(Encode(t, body)) == body
  {
    var line := Encode(t, body);
    assert line[..2] == Marker(t);
    assert line[2..] == body;
  }

  /** Every line that begins with one of difflib's four markers is rebuilt
      exactly from its tag and its text. */
  lemma EncodeDecode(line: string)
    requires |line| >= 2
    requires line[..2] in {Marker(Hint), Marker(Removed), Marker(Added), Marker(Context)}
    ensures Encode(TagOf(line), Body(line)) == line
  {
    assert Take(line, 2) == line[..2];
  }

  /** A line too short to carry a marker is context with no text. */
  lemma ShortLineIsEmptyContext(line: string)
    requires |line| < 2
    ensures TagOf(line) == Context
    ensures Body(line) == ""
  {
  }

  const ESC: char := '\U{1B}'

  /** The ANSI SGR sequences for green, red, yellow and reset. */
  const GREEN: string := [ESC] + "[92m"
  const RED: string := [ESC] + "[91m"
  const YELLOW: string := [ESC] + "[93m"
  const END_COLOR: string := [ESC] + "[0m"

  /** The four strings a rendering wraps changed text in: the code for hint
      lines, for removed lines, for added lines, and the closing code. */
  datatype Palette = Palette(hint: string, deletion: string, addition: string, end: string)

  /** The colour codes when colouring is on; otherwise the diff markers
      themselves stand in for the colours and nothing closes them. */
  function Colors(colorize: bool): (p: Palette)
    ensures colorize ==> p == Palette(YELLOW, RED, GREEN, END_COLOR)
    ensures !colorize ==>
      p.hint == Marker(Hint) && p.deletion == Marker(Removed) && p.addition == Marker(Added) && p.end == ""
  {
    var yellow := if colorize then YELLOW else "? ";
    var red := if colorize then RED else "- ";
    var green := if colorize then GREEN else "+ ";
    var end := if colorize then END_COLOR else "";
    Palette(yellow, red, green, end)
  }

  /** The opening code a rendering uses for a line of the given kind; context
      lines are never wrapped. */
  function Paint(p: Palette, t: Tag): string
  {
    match t
    case Hint => p.hint
    case Removed => p.deletion
    case Added => p.addition
    case Context => ""
  }

  /** Without colour, wrapping a changed line's text gives back the diff line
      itself: the opening code is the line's own marker and the closing code
      is empty. */
  lemma PlainWrapIsDiffLine(line: string)
    requires TagOf(line) != Context
    ensures Paint(Colors(false), TagOf(line)) + Body(line) + Colors(false).end == line
  {
    assert Take(line, 2) == line[..2];
  }

  /** With colour, every code is an escape sequence (it starts with ESC) and
      none of them contains a newline; without colour, no code contains ESC
      or a newline. */
  lemma PaletteCharacters(colorize: bool)
    ensures var p := Colors(colorize);
      forall code :: code in [p.hint, p.deletion, p.addition, p.end] ==>
        '\n' !in code && (colorize ==> |code| > 0 && code[0] == ESC) && (!colorize ==> ESC !in code)
  {
  }
}
