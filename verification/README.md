# scrapli_cfg diff engine in Dafny

A model of the diff post-processing engine of scrapli_cfg's
`ScrapliCfgDiffResponse`. The engine takes the lines `difflib.Differ`
produces when comparing a source configuration with a candidate
configuration (each line a two-character marker — `"? "`, `"- "`, `"+ "` or
`"  "` — followed by text) and turns them into:

- the **additions** and **subtractions**: the texts of the `"+ "` and `"- "`
  lines, concatenated in order;
- the **colour palette**: ANSI codes for hint, removed and added lines plus a
  reset code, or, with colouring off, the diff markers themselves and an
  empty reset;
- the **unified rendering**: each changed line wrapped in its code, context
  lines reduced to their text, concatenated with nothing in between;
- the **side-by-side rendering**: one row per line, each side cut to the half
  display width less five, right-stripped, the left side padded to the half
  width, rows joined with single newlines;
- the **compute-once caches** behind both rendering properties.

Modules, one per concern:

- `PyStr` (`pystr.dfy`): the Python string operations the engine relies on,
  with Python's semantics (clamping and negative slices, `rstrip()` over
  Python's whitespace set, `" <n"` padding, `"".join`, `"\n".join`). `Split`
  and `Count` are not used by the engine; they only serve to state
  `SideBySide.RenderRowCount` and `Changes.ChangedTextLineCount`.
- `DiffLines` (`difflines.dfy`): markers, the dispatch on `line[:2]`, the
  text `line[2:]`, colour constants and the no-colour fallback.
- `Changes` (`changes.dfy`): additions and subtractions.
- `Unified` (`unified.dfy`): the unified rendering.
- `SideBySide` (`sidebyside.dfy`): width arithmetic, cells, rows and the
  side-by-side rendering, including the `ValueError` Python raises when the
  half width is negative.
- `DiffResponse` (`response.dfy`): the response object as a value, with
  `record_diff_response` and the two cached properties, each access
  returning the text and the response as it is afterwards.
- `Wrappers` (`wrappers.dfy`): a success-or-error result type.

Diff lines are a `seq<string>` taken as given: the matching that produces
them is not modelled. The terminal width is a parameter of the side-by-side
access.

Behaviour of the code worth knowing:

- Rendering before anything is recorded is not an error: both renderings are
  the empty string (`DiffResponse.RenderBeforeRecord`).
- An empty rendering is never cached: the cache test treats the empty string
  as not cached, so it is recomputed on every access. An empty unified
  rendering comes out the same every time (`DiffResponse.UnifiedIdempotent`).
  An empty side-by-side rendering is recomputed with the terminal width of
  each access and can change: the blank context line `"  \n"` with no
  configured width renders as `""` on a terminal one column wide and as ten
  blanks on one twenty columns wide (`DiffResponse.EmptySideBySideFollowsTerminal`).
- Without colour the palette is the markers `"? "`, `"- "`, `"+ "` and an
  empty reset, so in the unified rendering each changed line comes out as
  the original diff line (`Unified.PlainRenderKeepsChangedLines`). In the
  side-by-side rendering the marker only takes the place of the colour code:
  the text is still cut, stripped and padded, and a hint's text appears
  twice, so at width 20 the line `"- abc\n"` shows as `"- abc"` followed by
  seven blanks (`SideBySide.PlainRowIsNotDiffLine`).
- Below a width of ten the cut bound `half - 5` is negative and Python's
  slice then drops characters from the end, so a cell can be wider than its
  column (`SideBySide.NarrowWidthOverflows`). A width of -2 or less makes the
  padding format spec negative, which Python rejects with `ValueError` as
  soon as there is a row (`SideBySide.Render`).
- Recording again does not clear the caches, so a rendering cached before a
  second recording is returned afterwards (`DiffResponse.RecordKeepsStaleCache`).

## Model

| member | source | states |
|---|---|---|
| `PyStr.RStrip` | scrapli_cfg/diff.py:166-177 | `rstrip()` returns a prefix of its input that does not end in whitespace, and everything it removed is whitespace |
| `PyStr.RStripUnique` | scrapli_cfg/diff.py:166-177 | those two properties determine `rstrip()` completely: any prefix with them is the stripped string |
| `PyStr.Take` | scrapli_cfg/diff.py:166-177 | `s[:n]` is a prefix of `s` of length `min(n, len)` for `n >= 0` and `max(0, len + n)` for negative `n` |
| `PyStr.LJust` | scrapli_cfg/diff.py:166-176 | `" <n"` padding keeps the text as a prefix, pads only with blanks, and yields `max(len, n)` characters |
| `PyStr.RStripLJust` | scrapli_cfg/diff.py:166-176 | stripping a padded stripped text gives the text back, so a padded column can be read back |
| `PyStr.Concat` | scrapli_cfg/diff.py:115-116 | `"".join` of no parts is `""` and of one part is that part; with `PyStr.ConcatAppend`, the join of a split list is the joins of the pieces concatenated, so nothing is put between parts |
| `PyStr.ConcatAppend` | scrapli_cfg/diff.py:217 | joining with `""` distributes over list concatenation: no separator is added anywhere |
| `PyStr.Join` | scrapli_cfg/diff.py:181 | `"\n".join` of no parts is `""`, of one part that part with no trailing separator, and otherwise starts with the first part; `PyStr.SplitJoin` shows the parts are separated by exactly one separator each |
| `PyStr.SplitJoin` | scrapli_cfg/diff.py:181 | splitting a `"\n"`-joined list at newlines recovers the list when no element contains a newline |
| `DiffLines.TagOf` | scrapli_cfg/diff.py:164-172 | a line is hint, removed or added only when its first two characters `line[:2]` are that marker, and context only when they are none of the three (both directions in `DiffLines.TagOfMarkers`) |
| `DiffLines.TagOfMarkers` | scrapli_cfg/diff.py:164-177 | a line is hint, removed or added exactly when it starts with that marker, and context exactly when it starts with none of the three |
| `DiffLines.Body` | scrapli_cfg/diff.py:115-116 | `line[2:]` has two characters fewer than the line (none for short lines) and is what follows the first two characters |
| `DiffLines.DecodeEncode` | scrapli_cfg/diff.py:164-177 | reading back a line written with any of the four markers recovers the marker's kind and the original text |
| `DiffLines.EncodeDecode` | scrapli_cfg/diff.py:164-177 | every line beginning with one of the four markers is rebuilt exactly from its kind and text |
| `DiffLines.ShortLineIsEmptyContext` | scrapli_cfg/diff.py:175-177 | a line shorter than two characters is context with empty text |
| `DiffLines.Colors` | scrapli_cfg/diff.py:132-136 | with colour the palette is yellow, red, green and reset; without, it is the hint, removed and added markers and an empty reset |
| `DiffLines.PlainWrapIsDiffLine` | scrapli_cfg/diff.py:132-135 | without colour, wrapping a changed line's text in its code gives back the diff line itself |
| `DiffLines.PaletteCharacters` | scrapli_cfg/diff.py:9-12 | colour codes start with ESC, plain codes contain no ESC, and no code contains a newline |
| `Changes.Selected` | scrapli_cfg/diff.py:115-116 | the comprehension yields one text per line carrying the marker, so exactly as many as there are such lines; the list itself, order and content, is fixed by `Changes.SelectedAppend` and `Changes.SelectedSingle` |
| `Changes.SelectedAppend` | scrapli_cfg/diff.py:115-116 | the comprehension over a diff split in two is the comprehensions over the parts, in order |
| `Changes.SelectedSingle` | scrapli_cfg/diff.py:115-116 | a single line contributes its text when it carries the marker and nothing otherwise |
| `Changes.ChangedText` | scrapli_cfg/diff.py:115-116 | the joined text is empty when no line carries the marker; what it holds otherwise is stated by `Changes.ExtractChanges`, `Changes.ChangedTextSnoc` and `Changes.ChangedTextEmpty` |
| `Changes.ChangedTextSnoc` | scrapli_cfg/diff.py:115-116 | appending a line with the marker appends exactly its text; appending any other line changes nothing |
| `Changes.ExtractChanges` | scrapli_cfg/diff.py:115-116 | a single pass over the lines yields exactly the texts of the `"+ "` lines and of the `"- "` lines, concatenated in order |
| `Changes.ChangedTextAppend` | scrapli_cfg/diff.py:115-116 | the extracted text of a diff split in two is the extracted texts of the parts, in order |
| `Changes.ChangedTextIgnoresOthers` | scrapli_cfg/diff.py:115-116 | inserting a line with another marker anywhere does not change the additions (or subtractions) |
| `Changes.ChangedTextEmpty` | scrapli_cfg/diff.py:115-116 | the additions are empty exactly when every `"+ "` line has empty text, so in particular when there is none; likewise subtractions |
| `Changes.ChangedTextLineCount` | scrapli_cfg/diff.py:108-116 | when each selected line's text holds one newline, the extracted text holds exactly one newline per selected line |
| `Changes.ReplacedLineScenario` | scrapli_cfg/diff.py:115-116 | for the diff lines `"  a\n"`, `"- b\n"`, `"+ x\n"`, `"  c\n"` (source `a b c` against candidate `a x c`) the subtractions are `b\n` and the additions `x\n` |
| `Changes.NewLineScenario` | scrapli_cfg/diff.py:115-116 | a single added line `new\n` gives additions `new\n` and no subtractions |
| `Unified.Piece` | scrapli_cfg/diff.py:207-216 | a piece is as long as the line's text plus, for a changed line, its opening code and the closing code; a context line's piece is exactly as long as its text |
| `Unified.Render` | scrapli_cfg/diff.py:207-217 | nothing is lost or invented: the rendering's length is the total text length plus 9 (colour) or 2 (no colour) characters per changed line and nothing per context line; its content is fixed by `Unified.RenderSnoc` and `Unified.RenderAppend` |
| `Unified.RenderSnoc` | scrapli_cfg/diff.py:207-217 | appending a diff line appends exactly that line's piece to the rendering |
| `Unified.RenderAppend` | scrapli_cfg/diff.py:207-217 | the unified rendering is one piece per line in order with no separator: rendering a split diff is rendering the parts and concatenating |
| `Unified.PlainRenderKeepsChangedLines` | scrapli_cfg/diff.py:132-135 | without colour, a diff of changed lines only renders as the diff lines themselves, concatenated |
| `Unified.ContextOnlyRenderIsText` | scrapli_cfg/diff.py:207-217 | a diff in which no line carries a change marker, whatever its first two characters, renders as the concatenation of the lines' texts `line[2:]`, with or without colour |
| `Unified.IdenticalTextsRenderAsText` | scrapli_cfg/diff.py:207-217 | lines that all carry the two-blank marker render as their texts concatenated, with or without colour |
| `Unified.PlainRenderHasNoEscape` | scrapli_cfg/diff.py:207-217 | without colour the unified rendering contains an ESC character only if some diff line does |
| `SideBySide.TruncHalf` | scrapli_cfg/diff.py:159 | `int(w / 2)` is half of `w` truncated toward zero: twice it is within one of `w` and it has the sign of `w` |
| `SideBySide.ResolveWidth` | scrapli_cfg/diff.py:158 | a configured width of 0 falls back to the terminal's width; any other configured width is used |
| `SideBySide.Cell` | scrapli_cfg/diff.py:166-177 | a cell is a prefix of the line's text without trailing whitespace, at most `side` long when `side >= 0` and at most `len + side` long when negative |
| `SideBySide.Row` | scrapli_cfg/diff.py:162-179 | every row is at least as wide as the padded left column; its columns are given by `SideBySide.RowGeometry` |
| `SideBySide.Rows` | scrapli_cfg/diff.py:162-179 | the list of rows has one entry per diff line, in order, each the row of that line; `SideBySide.RenderRows` proves, through its loop invariant `rows == Rows(lines[..i], ..)`, that the source's loop builds this list |
| `SideBySide.Render` | scrapli_cfg/diff.py:158-181 | the rendering raises exactly when there is at least one line and the width is -2 or less, and an empty diff renders as `""` |
| `SideBySide.RenderRowCount` | scrapli_cfg/diff.py:162-181 | an empty diff renders as `""`; otherwise splitting the rendering at newlines gives exactly one row per diff line, in order |
| `SideBySide.RowGeometry` | scrapli_cfg/diff.py:158-177 | for widths of ten or more each cell is at most `half - 5` long, left columns are exactly `half` wide and read back as the cell, added rows start with `half` blanks, removed rows have an empty right column |
| `SideBySide.NarrowWidthOverflows` | scrapli_cfg/diff.py:159-170 | on a display four wide, a removed line `abcdefgh` still shows `abcde`, wider than the half width of 2 |
| `SideBySide.PlainRowIsNotDiffLine` | scrapli_cfg/diff.py:158-181 | without colour, at width 20, the diff `"- abc\n"` renders as `"- abc"` and seven blanks: marker in place of the colour, text stripped and padded, newline gone |
| `SideBySide.RenderRows` | scrapli_cfg/diff.py:162-181 | the row-building loop followed by the newline join computes the side-by-side rendering, raising on the first row when the half width is negative |
| `DiffResponse.New` | scrapli_cfg/diff.py:36-51 | a new response keeps its configuration and starts with nothing recorded and empty caches |
| `DiffResponse.Width` | scrapli_cfg/diff.py:158 | the configured width is used unless it is 0, in which case the terminal's column count is |
| `DiffResponse.Record` | scrapli_cfg/diff.py:103-116 | recording stores the three texts and the lines verbatim, derives additions and subtractions, and leaves configuration and caches untouched |
| `DiffResponse.RecordConsistent` | scrapli_cfg/diff.py:103-116 | recording into a response with empty caches leaves everything stored consistent with the recorded lines |
| `DiffResponse.UnifiedDiff` | scrapli_cfg/diff.py:202-221 | the property returns a non-empty cache as is, otherwise the rendering of the current lines, and changes nothing but the cache |
| `DiffResponse.SideBySideDiff` | scrapli_cfg/diff.py:153-185 | the property returns a non-empty cache as is, otherwise the rendering for the resolved width or its error; a failed rendering stores nothing |
| `DiffResponse.NewConsistent` | scrapli_cfg/diff.py:36-51 | a freshly constructed response is consistent on any terminal |
| `DiffResponse.AccessKeepsConsistent` | scrapli_cfg/diff.py:183-185 | storing a rendering in its cache keeps a consistent response consistent |
| `DiffResponse.UnifiedIdempotent` | scrapli_cfg/diff.py:202-221 | asking twice gives the same text and the second access changes nothing, even when the rendering is empty |
| `DiffResponse.SideBySideIdempotent` | scrapli_cfg/diff.py:153-185 | asking twice on the same terminal gives the same text and the second access changes nothing |
| `DiffResponse.SideBySideCapturedOnce` | scrapli_cfg/diff.py:153-158 | after a non-empty rendering is cached, every access returns it whatever the terminal width |
| `DiffResponse.EmptySideBySideFollowsTerminal` | scrapli_cfg/diff.py:153-181 | an empty side-by-side rendering is not cached and is recomputed for the current terminal: `""` on one column, ten blanks on twenty |
| `DiffResponse.RenderBeforeRecord` | scrapli_cfg/diff.py:46-51 | a fresh response renders both ways as the empty string, without error |
| `DiffResponse.RecordKeepsStaleCache` | scrapli_cfg/diff.py:103-116 | a unified rendering cached before a second recording is still returned after it |

## Left out

- `difflib.Differ().compare` and `splitlines(keepends=True)` (scrapli_cfg/diff.py:107-113): the library's line matching is not modelled; the diff lines are an input.
- `shutil.get_terminal_size()`: environment I/O; the terminal's column count is a parameter of the side-by-side access.
- `SideBySide.TruncHalf`: exact integer halving; Python divides as a float first, which differs only for widths beyond 2^53.
- `__repr__`, `__str__` and the `ScrapliCfgResponse` superclass (`failed`, `raise_for_status`): formatting and status handling outside the diff engine; scrapli_cfg/response.py is not part of this model.
- Reassigning `colorize` or `side_by_side_diff_width` after construction: the model fixes them when the response is created.
- scrapli_cfg/platform/base/sync_platform.py: `open()` is transport plumbing, `get_config`, `load_config`, `abort_config`, `commit_config` and `diff_config` are abstract methods without bodies, and `render_substituted_config` delegates to a helper that is not part of this model.
- Logging.
