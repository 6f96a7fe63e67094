/**
  The additions and subtractions a diff response records: the texts of the
  diff lines carrying the `"+ "` marker, concatenated in order, and likewise
  for `"- "`.
 */
module Changes {
  import opened PyStr
  import opened DiffLines

  /** The contribution of one line: its text if it is tagged `t`. */
  function Picked(line: string, t: Tag): seq<string>
  {
    if TagOf(line) == t then [Body(line)] else []
  }

  /** The texts of the lines tagged `t`, in diff order (the list
      comprehension the engine joins). */
  function Selected(lines: seq<string>, t: Tag): (r: seq<string>)
    ensures |r| == CountTagged(lines, t)
  {
    if |lines| == 0 then []
    else Selected(lines[..|lines| - 1], t) + Picked(lines[|lines| - 1], t)
  }

  /** The joined text of the lines tagged `t`: for `Added` this is the
      response's additions, for `Removed` its subtractions. */
  function ChangedText(lines: seq<string>, t: Tag): (r: string)
    ensures CountTagged(lines, t) == 0 ==> r == ""
  {
    Concat(Selected(lines, t))
  }

  /** How many lines are tagged `t`. */
  function CountTagged(lines: seq<string>, t: Tag): nat
  {
    if |lines| == 0 then 0
    else CountTagged(lines[..|lines| - 1], t) + (if TagOf(lines[|lines| - 1]) == t then 1 else 0)
  }

  lemma {:induction false} SelectedAppend(a: seq<string>, b: seq<string>, t: Tag)
    ensures Selected(a + b, t) == Selected(a, t) + Selected(b, t)
    decreases |b|
  {
    if |b| == 0 {
      assert a + b == a;
    } else {
      var n := |b| - 1;
      assert (a + b)[..|a + b| - 1] == a + b[..n];
      assert (a + b)[|a + b| - 1] == b[n];
      SelectedAppend(a, b[..n], t);
    }
  }

  /** One line selected or not: the single-line building block. */
  lemma SelectedSingle(x: string, t: Tag)
    ensures Selected([x], t) == Picked(x, t)
  {
    assert [x][..0] == [];
  }

  /** The changed text of a split diff is the changed text of its parts,
      in order. */
  lemma ChangedTextAppend(a: seq<string>, b: seq<string>, t: Tag)
    ensures ChangedText(a + b, t) == ChangedText(a, t) + ChangedText(b, t)
  {
    SelectedAppend(a, b, t);
    ConcatAppend(Selected(a, t), Selected(b, t));
  }

  /** No other lines contribute: inserting a line with a different tag
      anywhere leaves the changed text as it was. */
  lemma ChangedTextIgnoresOthers(a: seq<string>, x: string, b: seq<string>, t: Tag)
    requires TagOf(x) != t
    ensures ChangedText(a + [x] + b, t) == ChangedText(a + b, t)
  {
    ChangedTextAppend(a + [x], b, t);
    ChangedTextAppend(a, [x], t);
    SelectedSingle(x, t);
    assert ChangedText([x], t) == "";
    ChangedTextAppend(a, b, t);
  }

  /** A line tagged `t` contributes exactly its text, at the end. */
  lemma ChangedTextSnoc(a: seq<string>, x: string, t: Tag)
    ensures ChangedText(a + [x], t) == ChangedText(a, t) + (if TagOf(x) == t then Body(x) else "")
  {
    ChangedTextAppend(a, [x], t);
    SelectedSingle(x, t);
    assert Concat([Body(x)]) == Body(x) by {
      assert [Body(x)][..0] == [];
    }
  }

  /** The changed text is empty exactly when every line tagged `t` has an
      empty text; in particular it is empty when no line is tagged `t`. */
  lemma {:induction false} ChangedTextEmpty(lines: seq<string>, t: Tag)
    ensures ChangedText(lines, t) == "" <==>
      forall i :: 0 <= i < |lines| && TagOf(lines[i]) == t ==> Body(lines[i]) == ""
    decreases |lines|
  {
    if |lines| > 0 {
      var n := |lines| - 1;
      var init := lines[..n];
      assert lines == init + [lines[n]];
      ChangedTextSnoc(init, lines[n], t);
      ChangedTextEmpty(init, t);
      assert forall i :: 0 <= i < n ==> init[i] == lines[i];
    }
  }

  /** Completeness: when every line tagged `t` holds exactly one line
      terminator `\n`, the changed text holds exactly one `\n` per such line,
      so no line is dropped or duplicated. */
  lemma {:induction false} ChangedTextLineCount(lines: seq<string>, t: Tag)
    requires forall i :: 0 <= i < |lines| && TagOf(lines[i]) == t ==> Count(Body(lines[i]), '\n') == 1
    ensures Count(ChangedText(lines, t), '\n') == CountTagged(lines, t)
    decreases |lines|
  {
    if |lines| > 0 {
      var n := |lines| - 1;
      var init := lines[..n];
      assert lines == init + [lines[n]];
      ChangedTextSnoc(init, lines[n], t);
      ChangedTextLineCount(init, t);
      CountAppend(ChangedText(init, t), if TagOf(lines[n]) == t then Body(lines[n]) else "", '\n');
    }
  }

  /** One pass over the diff lines collecting both texts, as
      `record_diff_response` does with its two comprehensions. */
  method ExtractChanges(lines: seq<string>) returns (additions: string, subtractions: string)
    ensures additions == ChangedText(lines, Added)
    ensures subtractions == ChangedText(lines, Removed)
  {
    additions, subtractions := "", "";
    var i := 0;
    while i < |lines|
      invariant 0 <= i <= |lines|
      invariant additions == ChangedText(lines[..i], Added)
      invariant subtractions == ChangedText(lines[..i], Removed)
    {
      var line := lines[i];
      assert lines[..i + 1] == lines[..i] + [line];
      ChangedTextSnoc(lines[..i], line, Added);
      ChangedTextSnoc(lines[..i], line, Removed);
      var tag := TagOf(line);
      if tag == Added {
        additions := additions + Body(line);
      } else if tag == Removed {
        subtractions := subtractions + Body(line);
      }
      i := i + 1;
    }
    assert lines[..i] == lines;
  }

  /** Replacing one line: for the diff lines of `a b c` against `a x c`
      the subtractions are the old line and the additions the new one. */
  lemma ReplacedLineScenario()
    ensures ChangedText(["  a\n", "- b\n", "+ x\n", "  c\n"], Removed) == "b\n"
    ensures ChangedText(["  a\n", "- b\n", "+ x\n", "  c\n"], Added) == "x\n"
  {
    var l0, l1, l2, l3 := "  a\n", "- b\n", "+ x\n", "  c\n";
    assert TagOf(l0) == Context && TagOf(l3) == Context;
    assert TagOf(l1) == Removed && TagOf(l2) == Added;
    assert Body(l1) == "b\n";
    assert Body(l2) == "x\n";
    assert [l0, l1, l2, l3] == [l0] + [l1] + [l2] + [l3];
    ScenarioSteps(l0, l1, l2, l3, Removed);
    ScenarioSteps(l0, l1, l2, l3, Added);
  }

  lemma ScenarioSteps(l0: string, l1: string, l2: string, l3: string, t: Tag)
    ensures ChangedText([l0] + [l1] + [l2] + [l3], t)
         == Concat(Picked(l0, t)) + Concat(Picked(l1, t)) + Concat(Picked(l2, t)) + Concat(Picked(l3, t))
  {
    ChangedTextAppend([l0] + [l1] + [l2], [l3], t);
    ChangedTextAppend([l0] + [l1], [l2], t);
    ChangedTextAppend([l0], [l1], t);
    SelectedSingle(l0, t);
    SelectedSingle(l1, t);
    SelectedSingle(l2, t);
    SelectedSingle(l3, t);
  }
  /** An empty source against a one-line candidate: the single added line is
      all of the additions and there are no subtractions. */
  lemma NewLineScenario()
    ensures ChangedText(["+ new\n"], Added) == "new\n"
    ensures ChangedText(["+ new\n"], Removed) == ""
  {
    assert TagOf("+ new\n") == Added;
    assert Body("+ new\n") == "new\n";
    SelectedSingle("+ new\n", Added);
    SelectedSingle("+ new\n", Removed);
    assert Concat(["new\n"]) == "new\n" by {
      assert ["new\n"][..0] == [];
    }
  }
}
