/**
  The handful of Python string operations the diff engine is built from,
  written out with Python's own semantics: slices that clamp instead of
  failing, negative slice bounds that count from the end, `str.rstrip()`
  with no argument, left-justified padding from a `" <n"` format spec,
  `"".join` and `sep.join`, plus `split` and a character count, which
  the engine itself does not call but which state what its output looks
  like. Strings are sequences of Unicode scalar values.
 */
module PyStr {

  function Min(a: int, b: int): int { if a <= b then a else b }
  function Max(a: int, b: int): int { if a <= b then b else a }

  /** Python `s[n:]` for a non-negative `n`: everything after the first `n`
      characters, or the empty string when `s` is shorter. */
  function Drop(s: string, n: nat): (r: string)
    ensures |r| == Max(0, |s| - n)
    ensures n <= |s| ==> s == s[..n] + r
    ensures n > |s| ==> r == ""
  {
    if n <= |s| then s[n..] else ""
  }

  /** Python `s[:n]`: a non-negative bound keeps at most `n` characters, a
      negative bound drops the last `-n` characters (all of them if `-n`
      exceeds the length). */
  function Take(s: string, n: int): (r: string)
    ensures r <= s
    ensures n >= 0 ==> |r| == Min(n, |s|)
    ensures n < 0 ==> |r| == Max(0, |s| + n)
  {
    if n >= 0 then (if n <= |s| then s[..n] else s)
    else if |s| + n >= 0 then s[..|s| + n]
    else ""
  }

  /** The characters Python's `str.isspace()` accepts, which is what
      `str.rstrip()` with no argument removes. */
  predicate IsSpace(c: char) {
    c in {'\t', '\n', '\U{0B}', '\U{0C}', '\r', '\U{1C}', '\U{1D}', '\U{1E}', '\U{1F}', ' ',
          '\U{85}', '\U{A0}', '\U{1680}',
          '\U{2000}', '\U{2001}', '\U{2002}', '\U{2003}', '\U{2004}', '\U{2005}',
          '\U{2006}', '\U{2007}', '\U{2008}', '\U{2009}', '\U{200A}',
          '\U{2028}', '\U{2029}', '\U{202F}', '\U{205F}', '\U{3000}'}
  }

  /** A string with no trailing whitespace: what `rstrip()` produces. */
  predicate Stripped(s: string) {
    s == [] || !IsSpace(s[|s| - 1])
  }

  /** Python `s.rstrip()`. */
  function RStrip(s: string): (r: string)
    ensures r <= s
    ensures Stripped(r)
    ensures forall i :: |r| <= i < |s| ==> IsSpace(s[i])
    decreases |s|
  {
    if |s| > 0 && IsSpace(s[|s| - 1]) then RStrip(s[..|s| - 1]) else s
  }

  /** A stripped prefix of `s` is at least as long as any prefix after which
      `s` holds only whitespace. */
  lemma StrippedNotLonger(s: string, r: string, t: string)
    requires r <= s && t <= s && Stripped(t)
    requires forall i :: |r| <= i < |s| ==> IsSpace(s[i])
    ensures |t| <= |r|
  {
    if |t| > 0 {
      assert t[|t| - 1] == s[|t| - 1];
    }
  }

  /** `rstrip()` is determined by its contract: the only prefix of `s` that
      has no trailing whitespace and leaves only whitespace behind is
      `RStrip(s)`. */
  lemma RStripUnique(s: string, t: string)
    requires t <= s && Stripped(t)
    requires forall i :: |t| <= i < |s| ==> IsSpace(s[i])
    ensures t == RStrip(s)
  {
    var r := RStrip(s);
    StrippedNotLonger(s, r, t);
    StrippedNotLonger(s, t, r);
  }

  /** Stripping twice is stripping once. */
  lemma RStripIdempotent(s: string)
    ensures RStrip(RStrip(s)) == RStrip(s)
  {
    var r := RStrip(s);
    RStripUnique(r, r);
  }

  /** `n` blanks. */
  function Blanks(n: nat): (r: string)
    ensures |r| == n
    ensures forall i :: 0 <= i < n ==> r[i] == ' '
  {
    seq(n, _ => ' ')
  }

  /** Python `f"{s : <{n}}"` for `n >= 0`: `s` left-justified, padded with
      blanks on the right up to `n` characters, never shortened. */
  function LJust(s: string, n: nat): (r: string)
    ensures |r| == Max(|s|, n)
    ensures s <= r
    ensures forall i :: |s| <= i < |r| ==> r[i] == ' '
  {
    if |s| >= n then s else s + Blanks(n - |s|)
  }

  /** Padding a stripped string and stripping it again gives it back: the
      text of a padded column can be read back exactly. */
  lemma RStripLJust(s: string, n: nat)
    requires Stripped(s)
    ensures RStrip(LJust(s, n)) == s
  {
    RStripUnique(LJust(s, n), s);
  }

  /** Python `"".join(parts)`: no parts give the empty string and a single
      part is returned as it is; `ConcatAppend` shows nothing is put between
      parts. */
  function Concat(parts: seq<string>): (r: string)
    ensures |parts| == 0 ==> r == ""
    ensures |parts| == 1 ==> r == parts[0]
  {
    if |parts| == 0 then "" else Concat(parts[..|parts| - 1]) + parts[|parts| - 1]
  }

  lemma {:induction false} ConcatAppend(a: seq<string>, b: seq<string>)
    ensures Concat(a + b) == Concat(a) + Concat(b)
    decreases |b|
  {
    if |b| == 0 {
      assert a + b == a;
    } else {
      var n := |b| - 1;
      var ab := a + b;
      assert ab[..|ab| - 1] == a + b[..n];
      assert ab[|ab| - 1] == b[n];
      ConcatAppend(a, b[..n]);
      var x, y := Concat(a), Concat(b[..n]);
      assert Concat(ab) == (x + y) + b[n];
      assert Concat(b) == y + b[n];
      assert (x + y) + b[n] == x + (y + b[n]);
    }
  }

  /** Python `sep.join(parts)`: no parts give the empty string, otherwise the
      first part is a prefix and a single part is returned as it is, with no
      separator after it. */
  function Join(sep: string, parts: seq<string>): (r: string)
    ensures |parts| == 0 ==> r == ""
    ensures |parts| >= 1 ==> parts[0] <= r
    ensures |parts| == 1 ==> r == parts[0]
  {
    if |parts| == 0 then ""
    else if |parts| == 1 then parts[0]
    else parts[0] + sep + Join(sep, parts[1..])
  }

  /** Python `s.split(c)` for a single separator character: the pieces
      between occurrences of `c`; the empty string splits into `[""]`. */
  function Split(s: string, c: char): (r: seq<string>)
    ensures |r| >= 1
    decreases |s|
  {
    if |s| == 0 then [""]
    else
      var rest := Split(s[1..], c);
      if s[0] == c then [""] + rest
      else [[s[0]] + rest[0]] + rest[1..]
  }

  lemma {:induction false} SplitNoSeparator(p: string, c: char)
    requires c !in p
    ensures Split(p, c) == [p]
    decreases |p|
  {
    if |p| > 0 {
      SplitNoSeparator(p[1..], c);
      assert [p[0]] + p[1..] == p;
    }
  }

  lemma {:induction false} SplitAtSeparator(p: string, c: char, t: string)
    requires c !in p
    ensures Split(p + [c] + t, c) == [p] + Split(t, c)
    decreases |p|
  {
    var s := p + [c] + t;
    if |p| == 0 {
      assert s[1..] == t;
    } else {
      assert s[1..] == p[1..] + [c] + t;
      SplitAtSeparator(p[1..], c, t);
      assert [p[0]] + p[1..] == p;
    }
  }

  /** Splitting a joined sequence at the separator recovers the parts, as
      long as no part contains the separator itself. */
  lemma {:induction false} SplitJoin(parts: seq<string>, c: char)
    requires |parts| >= 1
    requires forall i :: 0 <= i < |parts| ==> c !in parts[i]
    ensures Split(Join([c], parts), c) == parts
    decreases |parts|
  {
    if |parts| == 1 {
      SplitNoSeparator(parts[0], c);
    } else {
      SplitJoin(parts[1..], c);
      SplitAtSeparator(parts[0], c, Join([c], parts[1..]));
      assert [parts[0]] + parts[1..] == parts;
    }
  }

  /** Number of occurrences of `c` in `s`. */
  function Count(s: string, c: char): nat
  {
    if |s| == 0 then 0 else Count(s[..|s| - 1], c) + (if s[|s| - 1] == c then 1 else 0)
  }

  lemma {:induction false} CountAppend(a: string, b: string, c: char)
    ensures Count(a + b, c) == Count(a, c) + Count(b, c)
    decreases |b|
  {
    if |b| == 0 {
      assert a + b == a;
    } else {
      var n := |b| - 1;
      assert (a + b)[..|a + b| - 1] == a + b[..n];
      CountAppend(a, b[..n], c);
    }
  }
}
