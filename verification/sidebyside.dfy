/**
  The side-by-side rendering: one row per diff line, the source side on the
  left padded to half the display width, the candidate side on the right,
  each side's text cut to the half width less a five character margin and
  stripped of trailing whitespace; rows joined with single newlines.
 */
module SideBySide {
  import opened PyStr
  import opened DiffLines
  import opened Wrappers

  /** Python raises `ValueError` ("Sign not allowed in string format
      specifier") when a `" <n"` format spec gets a negative `n`. */
  datatype FormatError = SignNotAllowed

  function Abs(x: int): nat { if x < 0 then -x else x }

  /** Python `int(w / 2)`: half of `w`, truncated toward zero. */
  function TruncHalf(w: int): (h: int)
    ensures Abs(2 * h) <= Abs(w) < Abs(2 * h) + 2
    ensures (w >= 0 ==> h >= 0) && (w <= 0 ==> h <= 0)
  {
    if w >= 0 then w / 2 else -((-w) / 2)
  }

  /** Python `configured or terminal`: a configured width of 0 means "ask the
      terminal". */
  function ResolveWidth(configured: int, terminalColumns: nat): (w: int)
    ensures configured != 0 ==> w == configured
    ensures configured == 0 ==> w == terminalColumns
  {
    if configured != 0 then configured else terminalColumns
  }

  /** The text one side of a row shows: the line's text cut with Python's
      `[:side]` (a negative `side` drops characters from the end) and
      right-stripped. */
  function Cell(line: string, side: int): (c: string)
    ensures Stripped(c)
    ensures c <= Body(line)
    ensures side >= 0 ==> |c| <= side
    ensures side < 0 ==> |c| <= Max(0, |Body(line)| + side)
  {
    RStrip(Take(Body(line), side))
  }

  /** One row for one diff line, given the half width. Every row is at least
      as wide as the padded left column. */
  function Row(line: string, half: nat, p: Palette): (r: string)
    ensures |r| >= half
  {
    var c := Cell(line, half - 5);
    match TagOf(line)
    case Hint => p.hint + LJust(c, half) + p.end + p.hint + c + p.end
    case Removed => p.deletion + LJust(c, half) + p.end + ""
    case Added => LJust("", half) + p.addition + c + p.end
    case Context => LJust(c, half) + c
  }

  /** The rows of all diff lines, in order. */
  function Rows(lines: seq<string>, half: nat, p: Palette): (r: seq<string>)
    ensures |r| == |lines|
    ensures forall i :: 0 <= i < |lines| ==> r[i] == Row(lines[i], half, p)
  {
    seq(|lines|, i requires 0 <= i < |lines| => Row(lines[i], half, p))
  }

  /** The side-by-side rendering for a resolved display width. It fails
      exactly when there is a row to pad and the half width is negative, which
      by truncation toward zero means a width of -2 or less; a width of -1
      halves to 0 and renders. An empty diff renders as the empty string. */
  function Render(lines: seq<string>, width: int, colorize: bool): (r: Result<string, FormatError>)
    ensures r.Failure? <==> |lines| > 0 && width <= -2
    ensures |lines| == 0 ==> r == Success("")
  {
    var half := TruncHalf(width);
    if half < 0 then
      (if |lines| == 0 then Success("") else Failure(SignNotAllowed))
    else
      Success(Join("\n", Rows(lines, half, Colors(colorize))))
  }

  /** A diff line whose only newline, if any, is its last character: what
      splitting a text at line boundaries yields. */
  predicate SingleLine(line: string)
  {
    forall k :: 0 <= k < |line| - 1 ==> line[k] != '\n'
  }

  lemma CellHasNoNewline(line: string, side: int)
    requires SingleLine(line)
    ensures '\n' !in Cell(line, side)
  {
    var b := Body(line);
    var c := Cell(line, side);
    if |line| >= 2 {
      assert forall k :: 0 <= k < |b| ==> b[k] == line[k + 2];
    }
    assert forall k :: 0 <= k < |b| - 1 ==> b[k] != '\n';
    if |c| > 0 && |c| == |b| {
      assert c[|c| - 1] == b[|b| - 1];
    }
    assert forall k :: 0 <= k < |c| ==> c[k] == b[k];
  }

  lemma RowHasNoNewline(line: string, half: nat, colorize: bool)
    requires SingleLine(line)
    ensures '\n' !in Row(line, half, Colors(colorize))
  {
    CellHasNoNewline(line, half - 5);
    PaletteCharacters(colorize);
    var c := Cell(line, half - 5);
    assert '\n' !in LJust(c, half);
    assert '\n' !in LJust("", half);
  }

  /** One row per diff line: the empty diff renders as the empty string, and
      otherwise splitting the rendering at newlines gives back exactly the
      rows, one per diff line, in order (no trailing newline, no extra row). */
  lemma RenderRowCount(lines: seq<string>, width: int, colorize: bool)
    requires forall i :: 0 <= i < |lines| ==> SingleLine(lines[i])
    requires Render(lines, width, colorize).Success?
    ensures |lines| == 0 ==> Render(lines, width, colorize).value == ""
    ensures |lines| > 0 ==>
      var rows := Split(Render(lines, width, colorize).value, '\n');
      |rows| == |lines| && rows == Rows(lines, TruncHalf(width), Colors(colorize))
  {
    if |lines| > 0 {
      var half := TruncHalf(width);
      var p := Colors(colorize);
      var rows := Rows(lines, half, p);
      forall i | 0 <= i < |rows|
        ensures '\n' !in rows[i]
      {
        RowHasNoNewline(lines[i], half, colorize);
      }
      SplitJoin(rows, '\n');
    }
  }

  /** Column geometry of a row once the display is at least ten wide (the
      half width at least 5): the text shown is a prefix of the line's text
      of at most `half - 5` characters without trailing whitespace; a left
      column is padded to exactly `half` characters and reads back as that
      text; an added line's left column is all blanks and a removed line has
      nothing in the right column. */
  lemma RowGeometry(line: string, half: nat, p: Palette)
    requires half >= 5
    ensures var c := Cell(line, half - 5);
      |c| <= half - 5 && c <= Body(line) && Stripped(c)
    ensures var c := Cell(line, half - 5); var r := Row(line, half, p);
      TagOf(line) == Context ==>
        |r| == half + |c| && RStrip(r[..half]) == c && r[half..] == c
    ensures var c := Cell(line, half - 5); var r := Row(line, half, p);
      TagOf(line) == Added ==>
        |r| >= half && r[..half] == Blanks(half) && r[half..] == p.addition + c + p.end
    ensures var c := Cell(line, half - 5); var r := Row(line, half, p); var k := |p.deletion|;
      TagOf(line) == Removed ==>
        |r| == k + half + |p.end| && r[..k] == p.deletion
        && RStrip(r[k..k + half]) == c && r[k + half..] == p.end
    ensures var c := Cell(line, half - 5); var r := Row(line, half, p); var k := |p.hint|;
      TagOf(line) == Hint ==>
        |r| == k + half + |p.end| + k + |c| + |p.end| && r[..k] == p.hint
        && RStrip(r[k..k + half]) == c && r[k + half..] == p.end + p.hint + c + p.end
  {
    var c := Cell(line, half - 5);
    var t := TagOf(line);
    if t == Context {
      RowContext(line, half, p, c);
    } else if t == Added {
      RowAdded(line, half, p, c);
    } else if t == Removed {
      RowRemoved(line, half, p, c);
    } else {
      RowHint(line, half, p, c);
    }
  }

  lemma RowContext(line: string, half: nat, p: Palette, c: string)
    requires half >= 5 && c == Cell(line, half - 5) && TagOf(line) == Context
    ensures var r := Row(line, half, p);
      |r| == half + |c| && RStrip(r[..half]) == c && r[half..] == c
  {
    assert Row(line, half, p) == "" + LJust(c, half) + c;
    PaddedColumn("", c, half, c);
  }

  lemma RowAdded(line: string, half: nat, p: Palette, c: string)
    requires half >= 5 && c == Cell(line, half - 5) && TagOf(line) == Added
    ensures var r := Row(line, half, p);
      |r| >= half && r[..half] == Blanks(half) && r[half..] == p.addition + c + p.end
  {
    assert Row(line, half, p) == Blanks(half) + (p.addition + c + p.end);
  }

  lemma RowRemoved(line: string, half: nat, p: Palette, c: string)
    requires half >= 5 && c == Cell(line, half - 5) && TagOf(line) == Removed
    ensures var r := Row(line, half, p); var k := |p.deletion|;
      |r| == k + half + |p.end| && r[..k] == p.deletion
      && RStrip(r[k..k + half]) == c && r[k + half..] == p.end
  {
    assert Row(line, half, p) == p.deletion + LJust(c, half) + p.end;
    PaddedColumn(p.deletion, c, half, p.end);
  }

  lemma RowHint(line: string, half: nat, p: Palette, c: string)
    requires half >= 5 && c == Cell(line, half - 5) && TagOf(line) == Hint
    ensures var r := Row(line, half, p); var k := |p.hint|;
      |r| == k + half + |p.end| + k + |c| + |p.end| && r[..k] == p.hint
      && RStrip(r[k..k + half]) == c && r[k + half..] == p.end + p.hint + c + p.end
  {
    HintRowParts(line, half, p, c);
    PaddedColumn(p.hint, c, half, p.end + p.hint + c + p.end);
  }

  lemma HintRowParts(line: string, half: nat, p: Palette, c: string)
    requires c == Cell(line, half - 5) && TagOf(line) == Hint
    ensures Row(line, half, p) == p.hint + LJust(c, half) + (p.end + p.hint + c + p.end)
  {
    var left := p.hint + LJust(c, half);
    assert Row(line, half, p) == left + p.end + p.hint + c + p.end;
    assert left + p.end + p.hint + c + p.end == left + (p.end + p.hint + c + p.end);
  }

  /** A stripped text no wider than its column, padded and framed by `pre` and
      `post`, can be read back from the column. */
  lemma PaddedColumn(pre: string, c: string, half: nat, post: string)
    requires Stripped(c) && |c| <= half
    ensures var r := pre + LJust(c, half) + post;
      |r| == |pre| + half + |post| && r[..|pre|] == pre
      && RStrip(r[|pre|..|pre| + half]) == c && r[|pre| + half..] == post
  {
    var r := pre + LJust(c, half) + post;
    assert r[|pre|..|pre| + half] == LJust(c, half);
    RStripLJust(c, half);
  }

  /** Without colour a side-by-side row is not the diff line: the marker
      stands where the colour code would, but the text is stripped and
      padded to the half width. */
  lemma PlainRowIsNotDiffLine()
    ensures Render(["- abc\n"], 20, false) == Success("- abc       ")
  {
    var line := "- abc\n";
    assert Body(line) == "abc\n";
    assert Take("abc\n", 5) == "abc\n";
    assert RStrip("abc\n") == "abc" by {
      assert RStrip("abc") == "abc" by { assert !IsSpace('c'); }
    }
    assert LJust("abc", 10) == "abc       ";
    assert TagOf(line) == Removed && Cell(line, 5) == "abc";
    assert Row(line, 10, Colors(false)) == "- abc       ";
    assert Rows([line], 10, Colors(false)) == ["- abc       "];
  }

  /** Below a width of ten the cut bound is negative and Python's slice then
      drops characters from the end instead of keeping none: on a display
      four wide (half width 2) a removed line `abcdefgh` still shows
      `abcde`, wider than its column. */
  lemma NarrowWidthOverflows()
    ensures TruncHalf(4) == 2
    ensures Cell("- abcdefgh", TruncHalf(4) - 5) == "abcde"
  {
    var line := "- abcdefgh";
    assert Body(line) == "abcdefgh";
    assert Take("abcdefgh", -3) == "abcde";
    assert !IsSpace('e');
  }

  /** The rendering loop of the `side_by_side_diff` property: one row per
      diff line, then a newline join. */
  method RenderRows(lines: seq<string>, width: int, colorize: bool) returns (r: Result<string, FormatError>)
    ensures r == Render(lines, width, colorize)
  {
    var p := Colors(colorize);
    var half := TruncHalf(width);
    var rows: seq<string> := [];
    var i := 0;
    while i < |lines|
      invariant 0 <= i <= |lines|
      invariant half >= 0 ==> rows == Rows(lines[..i], half, p)
      invariant half < 0 ==> i == 0 && rows == []
    {
      if half < 0 {
        return Failure(SignNotAllowed);
      }
      assert lines[..i + 1] == lines[..i] + [lines[i]];
      assert Rows(lines[..i + 1], half, p) == Rows(lines[..i], half, p) + [Row(lines[i], half, p)];
      rows := rows + [Row(lines[i], half, p)];
      i := i + 1;
    }
    assert lines[..i] == lines;
    r := Success(Join("\n", rows));
  }
}
