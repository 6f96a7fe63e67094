/**
  The unified rendering: every diff line in order, changed lines wrapped in
  their colour code and the closing code, context lines reduced to their
  text, all joined with nothing in between.
 */
module Unified {
  import opened PyStr
  import opened DiffLines

  /** The rendering of one diff line: a changed line's text between its
      opening code and the closing code, a context line's text alone. */
  function Piece(line: string, p: Palette): (r: string)
    ensures var k := |Paint(p, TagOf(line))|;
      |r| == k + |Body(line)| + (if TagOf(line) == Context then 0 else |p.end|)
  {
    var t := TagOf(line);
    if t == Context then Body(line) else Paint(p, t) + Body(line) + p.end
  }

  /** The list the engine builds: one piece per diff line, in order. */
  function Pieces(lines: seq<string>, p: Palette): (r: seq<string>)
    ensures |r| == |lines|
    ensures forall i :: 0 <= i < |lines| ==> r[i] == Piece(lines[i], p)
  {
    seq(|lines|, i requires 0 <= i < |lines| => Piece(lines[i], p))
  }

  /** The whole unified rendering, the pieces joined with nothing in between.
      Nothing is lost or invented: its length is the texts of all lines plus
      a fixed wrapping per changed line and nothing per context line. */
  function Render(lines: seq<string>, colorize: bool): (r: string)
    ensures |r| == TextLength(lines) + ChangedLines(lines) * WrapLength(colorize)
  {
    PiecesLength(lines, colorize);
    Concat(Pieces(lines, Colors(colorize)))
  }

  lemma {:induction false} PiecesLength(lines: seq<string>, colorize: bool)
    ensures |Concat(Pieces(lines, Colors(colorize)))| == TextLength(lines) + ChangedLines(lines) * WrapLength(colorize)
    decreases |lines|
  {
    if |lines| > 0 {
      var n := |lines| - 1;
      var p := Colors(colorize);
      var ps, line, w := Pieces(lines, p), lines[n], WrapLength(colorize);
      var c, d := ChangedLines(lines[..n]), if TagOf(line) != Context then 1 else 0;
      assert ps[..n] == Pieces(lines[..n], p);
      assert |Concat(ps)| == |Concat(ps[..n])| + |Piece(line, p)|;
      PiecesLength(lines[..n], colorize);
      PieceLength(line, colorize);
      assert ChangedLines(lines) == c + d;
      assert (c + d) * w == c * w + d * w;
    }
  }

  lemma PieceLength(line: string, colorize: bool)
    ensures |Piece(line, Colors(colorize))| == |Body(line)| + (if TagOf(line) != Context then WrapLength(colorize) else 0)
  {
  }

  /** Appending a line appends its piece. */
  lemma RenderSnoc(lines: seq<string>, x: string, colorize: bool)
    ensures Render(lines + [x], colorize) == Render(lines, colorize) + Piece(x, Colors(colorize))
  {
    var p := Colors(colorize);
    var ps := Pieces(lines + [x], p);
    assert ps[..|lines|] == Pieces(lines, p);
    assert ps[|lines|] == Piece(x, p);
  }

  lemma RenderSingle(x: string, colorize: bool)
    ensures Render([x], colorize) == Piece(x, Colors(colorize))
  {
    RenderSnoc([], x, colorize);
    assert [] + [x] == [x];
  }

  /** The rendering is one piece per line in order with no separator: the
      rendering of a split diff is the renderings of its parts, joined. */
  lemma RenderAppend(a: seq<string>, b: seq<string>, colorize: bool)
    ensures Render(a + b, colorize) == Render(a, colorize) + Render(b, colorize)
  {
    var p := Colors(colorize);
    PiecesAppend(a, b, p);
    ConcatAppend(Pieces(a, p), Pieces(b, p));
  }

  lemma PiecesAppend(a: seq<string>, b: seq<string>, p: Palette)
    ensures Pieces(a + b, p) == Pieces(a, p) + Pieces(b, p)
  {
    var ab, pa, pb := Pieces(a + b, p), Pieces(a, p), Pieces(b, p);
    forall i | 0 <= i < |ab|
      ensures ab[i] == (pa + pb)[i]
    {
      if i < |a| {
        assert (a + b)[i] == a[i];
      } else {
        assert (a + b)[i] == b[i - |a|];
      }
    }
    assert ab == pa + pb;
  }

  /** Without colour, a diff with no context lines renders as the diff lines
      themselves, concatenated: each changed piece is its original line. */
  lemma PlainRenderKeepsChangedLines(lines: seq<string>)
    requires forall i :: 0 <= i < |lines| ==> TagOf(lines[i]) != Context
    ensures Render(lines, false) == Concat(lines)
  {
    forall i | 0 <= i < |lines|
      ensures Piece(lines[i], Colors(false)) == lines[i]
    {
      PlainWrapIsDiffLine(lines[i]);
    }
    assert Pieces(lines, Colors(false)) == lines;
  }

  /** The texts of the diff lines, in order. */
  function Bodies(lines: seq<string>): (r: seq<string>)
    ensures |r| == |lines|
    ensures forall i :: 0 <= i < |lines| ==> r[i] == Body(lines[i])
  {
    seq(|lines|, i requires 0 <= i < |lines| => Body(lines[i]))
  }

  /** A diff of context lines only, whatever their first two characters,
      renders as the concatenation of their texts, with or without colour. */
  lemma ContextOnlyRenderIsText(lines: seq<string>, colorize: bool)
    requires forall i :: 0 <= i < |lines| ==> TagOf(lines[i]) == Context
    ensures Render(lines, colorize) == Concat(Bodies(lines))
  {
    assert Pieces(lines, Colors(colorize)) == Bodies(lines);
  }

  /** Diffing a text against itself gives lines marked with two blanks; their
      rendering is the text, with or without colour. */
  lemma IdenticalTextsRenderAsText(texts: seq<string>, lines: seq<string>, colorize: bool)
    requires |lines| == |texts|
    requires forall i :: 0 <= i < |lines| ==> lines[i] == Encode(Context, texts[i])
    ensures Render(lines, colorize) == Concat(texts)
  {
    ContextLines(texts, lines);
    ContextOnlyRenderIsText(lines, colorize);
  }

  lemma ContextLines(texts: seq<string>, lines: seq<string>)
    requires |lines| == |texts|
    requires forall i :: 0 <= i < |lines| ==> lines[i] == Encode(Context, texts[i])
    ensures forall i :: 0 <= i < |lines| ==> TagOf(lines[i]) == Context
    ensures Bodies(lines) == texts
  {
    forall i | 0 <= i < |lines|
      ensures TagOf(lines[i]) == Context && Bodies(lines)[i] == texts[i]
    {
      DecodeEncode(Context, texts[i]);
    }
  }

  /** Without colour no escape character is added: the plain rendering
      contains ESC only if some diff line does. */
  lemma {:induction false} PlainRenderHasNoEscape(lines: seq<string>)
    requires forall i :: 0 <= i < |lines| ==> ESC !in lines[i]
    ensures ESC !in Render(lines, false)
    decreases |lines|
  {
    if |lines| > 0 {
      var n := |lines| - 1;
      PlainRenderHasNoEscape(lines[..n]);
      var line := lines[n];
      assert lines == lines[..n] + [line];
      RenderSnoc(lines[..n], line, false);
      if |line| >= 2 {
        assert Body(line) == line[2..];
        assert forall k :: 0 <= k < |Body(line)| ==> Body(line)[k] == line[k + 2];
      }
    }
  }

  /** Total length of the texts of all diff lines. */
  function TextLength(lines: seq<string>): nat
  {
    if |lines| == 0 then 0 else TextLength(lines[..|lines| - 1]) + |Body(lines[|lines| - 1])|
  }

  /** Number of hint, removed and added lines. */
  function ChangedLines(lines: seq<string>): nat
  {
    if |lines| == 0 then 0
    else ChangedLines(lines[..|lines| - 1]) + (if TagOf(lines[|lines| - 1]) != Context then 1 else 0)
  }

  /** The characters the rendering adds around one changed line: a five
      character colour code and a four character reset, or just the two
      character marker without colour. */
  function WrapLength(colorize: bool): nat
  {
    if colorize then 9 else 2
  }
}
