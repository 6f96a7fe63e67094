/**
  The diff response object: its configuration (colouring, side-by-side
  width), what `record_diff_response` stores, and the two rendering
  properties with their compute-once caches. The object is modelled as a
  value; every access returns the rendering together with the object as it
  is afterwards.
 */
module DiffResponse {
  import opened PyStr
  import opened DiffLines
  import opened Wrappers
  import Changes
  import Unified
  import SideBySide

  /** The fields of a diff response. `difflines` is the output of
      `difflib.Differ().compare` over the two configurations' lines, taken as
      given. The two caches hold the empty string until a non-empty rendering
      has been stored. */
  datatype Response = Response(
    host: string,
    source: string,
    colorize: bool,
    sideBySideWidth: int,
    sourceConfig: string,
    candidateConfig: string,
    deviceDiff: string,
    difflines: seq<string>,
    additions: string,
    subtractions: string,
    unifiedCache: string,
    sideBySideCache: string)

  /** A freshly constructed response: the configuration as given, nothing
      recorded, nothing cached. Python's defaults, colouring on and a
      configured width of 0 (ask the terminal), are `New(host, source, true, 0)`. */
  function New(host: string, source: string, colorize: bool, sideBySideWidth: int): (r: Response)
    ensures r.host == host && r.source == source
    ensures r.colorize == colorize && r.sideBySideWidth == sideBySideWidth
    ensures r.sourceConfig == "" && r.candidateConfig == "" && r.deviceDiff == ""
    ensures r.difflines == [] && r.additions == "" && r.subtractions == ""
    ensures r.unifiedCache == "" && r.sideBySideCache == ""
  {
    Response(host, source, colorize, sideBySideWidth, "", "", "", [], "", "", "", "")
  }

  /** `record_diff_response`: stores the three texts verbatim and the diff
      lines, and derives additions and subtractions from the lines. The
      caches are left as they were. */
  function Record(r: Response, sourceConfig: string, candidateConfig: string, deviceDiff: string,
                  difflines: seq<string>): (r': Response)
    ensures r'.sourceConfig == sourceConfig && r'.candidateConfig == candidateConfig
    ensures r'.deviceDiff == deviceDiff && r'.difflines == difflines
    ensures r'.additions == Changes.ChangedText(difflines, Added)
    ensures r'.subtractions == Changes.ChangedText(difflines, Removed)
    ensures r'.host == r.host && r'.source == r.source
    ensures r'.colorize == r.colorize && r'.sideBySideWidth == r.sideBySideWidth
    ensures r'.unifiedCache == r.unifiedCache && r'.sideBySideCache == r.sideBySideCache
  {
    r.(sourceConfig := sourceConfig, candidateConfig := candidateConfig, deviceDiff := deviceDiff,
       difflines := difflines,
       additions := Changes.ChangedText(difflines, Added),
       subtractions := Changes.ChangedText(difflines, Removed))
  }

  /** The display width the side-by-side rendering uses on a terminal that is
      `terminalColumns` wide: the configured width, unless it is 0, in which
      case the terminal's. */
  function Width(r: Response, terminalColumns: nat): (w: int)
    ensures r.sideBySideWidth != 0 ==> w == r.sideBySideWidth
    ensures r.sideBySideWidth == 0 ==> w == terminalColumns
  {
    SideBySide.ResolveWidth(r.sideBySideWidth, terminalColumns)
  }

  /** The unified cache is empty or holds the rendering of the current lines. */
  predicate UnifiedCoherent(r: Response)
  {
    r.unifiedCache == "" || r.unifiedCache == Unified.Render(r.difflines, r.colorize)
  }

  /** The side-by-side cache is empty or holds the rendering of the current
      lines for the terminal the response is shown on. */
  predicate SideCoherent(r: Response, terminalColumns: nat)
  {
    r.sideBySideCache == ""
    || SideBySide.Render(r.difflines, Width(r, terminalColumns), r.colorize) == Success(r.sideBySideCache)
  }

  /** Everything stored agrees with the recorded diff lines. */
  predicate Consistent(r: Response, terminalColumns: nat)
  {
    && r.additions == Changes.ChangedText(r.difflines, Added)
    && r.subtractions == Changes.ChangedText(r.difflines, Removed)
    && UnifiedCoherent(r)
    && SideCoherent(r, terminalColumns)
  }

  /** The `unified_diff` property. A non-empty cache is returned as is;
      otherwise the rendering is computed and stored. Only the cache
      changes. */
  function UnifiedDiff(r: Response): (out: (string, Response))
    ensures out.1 == r.(unifiedCache := out.0)
    ensures r.unifiedCache != "" ==> out.0 == r.unifiedCache
    ensures UnifiedCoherent(r) ==> out.0 == Unified.Render(r.difflines, r.colorize)
  {
    if r.unifiedCache != "" then (r.unifiedCache, r)
    else
      var text := Unified.Render(r.difflines, r.colorize);
      (text, r.(unifiedCache := text))
  }

  /** The `side_by_side_diff` property on a terminal `terminalColumns` wide.
      A non-empty cache is returned as is, whatever the terminal; otherwise
      the rendering is computed for the resolved width and stored. A failed
      rendering stores nothing. */
  function SideBySideDiff(r: Response, terminalColumns: nat): (out: Result<(string, Response), SideBySide.FormatError>)
    ensures out.Success? ==> out.value.1 == r.(sideBySideCache := out.value.0)
    ensures r.sideBySideCache != "" ==> out == Success((r.sideBySideCache, r))
    ensures SideCoherent(r, terminalColumns) ==>
      match SideBySide.Render(r.difflines, Width(r, terminalColumns), r.colorize)
      case Success(text) => out == Success((text, r.(sideBySideCache := text)))
      case Failure(e) => out == Failure(e)
  {
    if r.sideBySideCache != "" then Success((r.sideBySideCache, r))
    else
      match SideBySide.Render(r.difflines, Width(r, terminalColumns), r.colorize)
      case Success(text) => Success((text, r.(sideBySideCache := text)))
      case Failure(e) => Failure(e)
  }

  /** Recording into a response with nothing cached leaves it consistent. */
  lemma RecordConsistent(r: Response, sourceConfig: string, candidateConfig: string, deviceDiff: string,
                         difflines: seq<string>, terminalColumns: nat)
    requires r.unifiedCache == "" && r.sideBySideCache == ""
    ensures Consistent(Record(r, sourceConfig, candidateConfig, deviceDiff, difflines), terminalColumns)
  {
  }

  /** A freshly constructed response is consistent on any terminal. */
  lemma NewConsistent(host: string, source: string, colorize: bool, sideBySideWidth: int, terminalColumns: nat)
    ensures Consistent(New(host, source, colorize, sideBySideWidth), terminalColumns)
  {
  }

  /** Accessing either rendering keeps a response consistent. */
  lemma AccessKeepsConsistent(r: Response, terminalColumns: nat)
    requires Consistent(r, terminalColumns)
    ensures Consistent(UnifiedDiff(r).1, terminalColumns)
    ensures SideBySideDiff(r, terminalColumns).Success? ==>
      Consistent(SideBySideDiff(r, terminalColumns).value.1, terminalColumns)
  {
  }

  /** Asking twice gives the same text and the second access changes
      nothing; an empty rendering is recomputed, and comes out empty again. */
  lemma UnifiedIdempotent(r: Response)
    ensures var (a, r1) := UnifiedDiff(r);
      UnifiedDiff(r1) == (a, r1)
  {
  }

  /** The same for the side-by-side rendering on the same terminal. */
  lemma SideBySideIdempotent(r: Response, terminalColumns: nat)
    requires SideBySideDiff(r, terminalColumns).Success?
    ensures var (a, r1) := SideBySideDiff(r, terminalColumns).value;
      SideBySideDiff(r1, terminalColumns) == Success((a, r1))
  {
  }

  /** The width is captured at the first non-empty rendering: afterwards
      every access returns that text, whatever the terminal width is then. */
  lemma SideBySideCapturedOnce(r: Response, t1: nat, t2: nat)
    requires SideBySideDiff(r, t1).Success?
    requires SideBySideDiff(r, t1).value.0 != ""
    ensures var (a, r1) := SideBySideDiff(r, t1).value;
      SideBySideDiff(r1, t2) == Success((a, r1))
  {
  }

  /** Rendering before anything is recorded is not an error: both
      renderings of a fresh response are empty, for any terminal width. */
  lemma RenderBeforeRecord(host: string, source: string, colorize: bool, sideBySideWidth: int,
                           terminalColumns: nat)
    ensures UnifiedDiff(New(host, source, colorize, sideBySideWidth)).0 == ""
    ensures SideBySideDiff(New(host, source, colorize, sideBySideWidth), terminalColumns).Success?
    ensures SideBySideDiff(New(host, source, colorize, sideBySideWidth), terminalColumns).value.0 == ""
  {
  }

  /** An empty side-by-side rendering is not cached, so the next access
      renders again with the terminal width of that moment: with no
      configured width and the single blank context line `"  \n"`, a terminal
      one column wide gives half width 0 and the empty rendering, and a
      later access on a terminal twenty columns wide gives ten blanks. */
  lemma EmptySideBySideFollowsTerminal()
    ensures var r := Record(New("h", "running", false, 0), "\n", "\n", "", ["  \n"]);
      SideBySideDiff(r, 1) == Success(("", r))
      && SideBySideDiff(r, 20) == Success((Blanks(10), r.(sideBySideCache := Blanks(10))))
  {
    var line := "  \n";
    assert Body(line) == "\n";
    assert Take("\n", -5) == "";
    assert Take("\n", 5) == "\n";
    assert RStrip("\n") == "";
    assert SideBySide.Row(line, 0, Colors(false)) == "";
    assert SideBySide.Row(line, 10, Colors(false)) == Blanks(10);
  }

  /** Recording again does not clear the caches: after the unified
      rendering of one diff has been cached, recording a different diff
      still yields the first rendering. */
  lemma RecordKeepsStaleCache()
    ensures var r0 := Record(New("h", "running", false, 80), "", "a\n", "", ["+ a\n"]);
      var (first, r1) := UnifiedDiff(r0);
      var r2 := Record(r1, "b\n", "", "", ["- b\n"]);
      first == "+ a\n" && UnifiedDiff(r2).0 == "+ a\n" && Unified.Render(r2.difflines, false) == "- b\n"
  {
    Unified.RenderSingle("+ a\n", false);
    Unified.RenderSingle("- b\n", false);
    assert TagOf("+ a\n") == Added && TagOf("- b\n") == Removed;
  }
}
