/** The directive patterns of `ShaderSource.Parse`, `^\s*\#keyword\s+(.*?)\s*$`,
    as .NET's backtracking matcher runs them under `RegexOptions.Multiline`:

    - `^` holds at the start and after every '\n', `$` at the end and
      before every '\n';
    - `.` is any character but '\n', while `\s` includes '\n', so `^\s*`,
      `\s+` and the trailing `\s*` all cross line breaks;
    - start positions are tried left to right; at each, greedy `\s+` tries
      its longest run first, lazy `(.*?)` its shortest, greedy `\s*` its
      longest, and the first combination that succeeds is the match;
    - `Matches` and `Replace` resume scanning at the end of the previous
      match.

    The `#include` replacement pattern ends in `\s*\r?$` instead: the
    greedy `\s*` already takes any '\r' (a whitespace character), and
    ending one character earlier to let `\r?` take it yields the same
    match end, so both patterns are modelled by the same matcher. */
module DirectiveRegex {
  import opened Wrappers
  import opened Text

  const Include: string := "#include"
  const Version: string := "#version"

  /** `^`. */
  predicate LineStart(s: string, i: nat) {
    i <= |s| && (i == 0 || s[i - 1] == '\n')
  }

  /** `$`. */
  predicate LineEnd(s: string, i: nat) {
    i == |s| || (i < |s| && s[i] == '\n')
  }

  predicate Spaces(s: string, i: nat, j: nat)
    requires i <= j <= |s|
  {
    forall t | i <= t < j :: IsSpace(s[t])
  }

  predicate NoBreak(s: string, i: nat, j: nat)
    requires i <= j <= |s|
  {
    forall t | i <= t < j :: s[t] != '\n'
  }

  /** The end of the whitespace run that starts at `i`. */
  function SpaceEnd(s: string, i: nat): (j: nat)
    requires i <= |s|
    ensures i <= j <= |s| && Spaces(s, i, j)
    ensures j == |s| || !IsSpace(s[j])
    decreases |s| - i
  {
    if i < |s| && IsSpace(s[i]) then SpaceEnd(s, i + 1) else i
  }

  /** A whitespace stretch never reaches past the end of the run. */
  lemma SpacesWithinRun(s: string, i: nat, j: nat)
    requires i <= j <= |s| && Spaces(s, i, j)
    ensures j <= SpaceEnd(s, i)
  {
  }

  /** The first `$` position at or after `i`. */
  function NextLineEnd(s: string, i: nat): (j: nat)
    requires i <= |s|
    ensures i <= j <= |s| && LineEnd(s, j) && NoBreak(s, i, j)
    decreases |s| - i
  {
    if i == |s| || s[i] == '\n' then i else NextLineEnd(s, i + 1)
  }

  /** Where the whitespace that ends `s[lo..e]` begins. */
  function TrailStart(s: string, lo: nat, e: nat): (g: nat)
    requires lo <= e <= |s|
    ensures lo <= g <= e && Spaces(s, g, e)
    ensures g == lo || !IsSpace(s[g - 1])
    decreases e - lo
  {
    if e > lo && IsSpace(s[e - 1]) then TrailStart(s, lo, e - 1) else e
  }

  /** The last `$` position in `[w, hi]`, given the one at `w`. */
  function LastLineEnd(s: string, w: nat, hi: nat): (q: nat)
    requires w <= hi <= |s| && LineEnd(s, w)
    ensures w <= q <= hi && LineEnd(s, q)
    ensures forall t | q < t <= hi :: !LineEnd(s, t)
    decreases hi - w
  {
    if LineEnd(s, hi) then hi else LastLineEnd(s, w, hi - 1)
  }

  // ---------------------------------------------------------------------
  // One match.

  /** `^\s*`, the keyword and one `\s` from line start `L`: the keyword is
      the first non-whitespace text from there. */
  predicate DirectiveAt(s: string, key: string, L: nat) {
    && LineStart(s, L)
    && var h := SpaceEnd(s, L);
      h + |key| < |s| && s[h..h + |key|] == key && IsSpace(s[h + |key|])
  }

  /** A match: `[start, end)` is the matched text, `at` the keyword's
      position and `[argStart, argEnd)` the text of group 1. */
  datatype Match = Match(start: nat, at: nat, argStart: nat, argEnd: nat, end: nat)

  /** `m` is one way to match the pattern: `^`, whitespace, the keyword, at
      least one whitespace character, group 1 within one line, whitespace,
      then `$`. */
  predicate Split(s: string, key: string, m: Match) {
    && LineStart(s, m.start)
    && m.start <= m.at && m.at + |key| < m.argStart <= m.argEnd <= m.end <= |s|
    && Spaces(s, m.start, m.at) && s[m.at..m.at + |key|] == key
    && Spaces(s, m.at + |key|, m.argStart)
    && NoBreak(s, m.argStart, m.argEnd)
    && Spaces(s, m.argEnd, m.end) && LineEnd(s, m.end)
  }

  predicate Keyword(key: string) {
    |key| > 0 && key[0] == '#'
  }

  /** The positions of a match are in order within a text of length `n`. */
  predicate Within(m: Match, n: nat) {
    m.start <= m.at < m.argStart <= m.argEnd <= m.end <= n
  }

  /** The match the backtracking matcher finds at `L`. */
  function MatchAt(s: string, key: string, L: nat): (m: Match)
    requires DirectiveAt(s, key, L)
    ensures m.start == L && m.at == SpaceEnd(s, L) && Within(m, |s|)
  {
    var h := SpaceEnd(s, L);
    var r1 := SpaceEnd(s, h + |key|);
    var e := NextLineEnd(s, r1);
    var g := TrailStart(s, r1, e);
    var r2 := SpaceEnd(s, g);
    SpacesWithinRun(s, g, e);
    Match(L, h, r1, g, LastLineEnd(s, e, r2))
  }

  /** The matcher's match is a way to match the pattern. */
  lemma MatchAtSplits(s: string, key: string, L: nat)
    requires DirectiveAt(s, key, L)
    ensures Split(s, key, MatchAt(s, key, L))
  {
  }

  /** A split exists exactly where a directive starts. */
  lemma SplitIsDirective(s: string, key: string, m: Match)
    requires Keyword(key) && Split(s, key, m)
    ensures DirectiveAt(s, key, m.start) && m.at == SpaceEnd(s, m.start)
  {
    var h := SpaceEnd(s, m.start);
    SpacesWithinRun(s, m.start, m.at);
    assert s[m.at] == key[0];
    assert m.at == h;
  }

  /** The match at `L` is the first split in backtracking order: no split
      has a longer `\s+`; with the same `\s+` none has a shorter group; with
      the same group none ends later. */
  lemma MatchAtIsFirst(s: string, key: string, m': Match)
    requires Keyword(key) && Split(s, key, m')
    ensures DirectiveAt(s, key, m'.start)
    ensures var m := MatchAt(s, key, m'.start);
      && m'.at == m.at && m'.argStart <= m.argStart
      && (m'.argStart == m.argStart ==> m.argEnd <= m'.argEnd)
      && (m'.argStart == m.argStart && m'.argEnd == m.argEnd ==> m'.end <= m.end)
  {
    SplitIsDirective(s, key, m');
    var m := MatchAt(s, key, m'.start);
    MatchAtSplits(s, key, m'.start);
    var r1 := SpaceEnd(s, m.at + |key|);
    SpacesWithinRun(s, m.at + |key|, m'.argStart);
    if m'.argStart == m.argStart && m'.argEnd == m.argEnd {
      SpacesWithinRun(s, m.argEnd, m'.end);
    }
  }

  /** The matched text covers the directive's whole line: from its line
      start (or an earlier blank line) to at least the end of the line the
      keyword is on. */
  lemma MatchCoversLine(s: string, key: string, L: nat)
    requires DirectiveAt(s, key, L)
    ensures var m := MatchAt(s, key, L);
      m.start <= m.at && NextLineEnd(s, m.at) <= m.end && Spaces(s, m.start, m.at)
  {
  }

  // ---------------------------------------------------------------------
  // Scanning.

  /** The first directive start at or after `c`. */
  function NextDirective(s: string, key: string, c: nat): (L: Option<nat>)
    requires c <= |s|
    ensures L.Some? ==> c <= L.value <= |s| && DirectiveAt(s, key, L.value)
    ensures forall t | c <= t <= |s| && (L.None? || t < L.value) :: !DirectiveAt(s, key, t)
    decreases |s| - c
  {
    if DirectiveAt(s, key, c) then Some(c)
    else if c == |s| then None
    else NextDirective(s, key, c + 1)
  }

  /** The matches lie in `[c, n]` in order, without overlapping. */
  predicate Ordered(ms: seq<Match>, c: nat, n: nat) {
    && (forall i | 0 <= i < |ms| :: c <= ms[i].start && Within(ms[i], n))
    && (forall i, j | 0 <= i < j < |ms| :: ms[i].end <= ms[j].start)
  }

  lemma OrderedCons(m: Match, rest: seq<Match>, c: nat, n: nat)
    requires c <= m.start && Within(m, n) && Ordered(rest, m.end, n)
    ensures Ordered([m] + rest, c, n)
  {
    var ms := [m] + rest;
    forall i | 0 < i < |ms|
      ensures ms[i] == rest[i - 1]
    {
    }
    forall i, j | 0 <= i < j < |ms|
      ensures ms[i].end <= ms[j].start
    {
      if i > 0 {
        assert ms[i] == rest[i - 1] && ms[j] == rest[j - 1];
      }
    }
  }

  lemma OrderedTail(ms: seq<Match>, c: nat, n: nat)
    requires Ordered(ms, c, n) && ms != []
    ensures Ordered(ms[1..], ms[0].end, n)
  {
    forall i | 0 <= i < |ms[1..]|
      ensures ms[1..][i] == ms[i + 1]
    {
    }
  }

  /** Every match of the scan is the matcher's match at a directive start. */
  predicate Found(s: string, key: string, ms: seq<Match>) {
    forall i | 0 <= i < |ms| :: DirectiveAt(s, key, ms[i].start) && ms[i] == MatchAt(s, key, ms[i].start)
  }

  /** `Regex.Matches` from position `c`: each match is the one found at the
      first directive start at or after the end of the previous one. */
  function MatchesFrom(s: string, key: string, c: nat): (ms: seq<Match>)
    requires c <= |s|
    ensures Ordered(ms, c, |s|)
    decreases |s| - c
  {
    match NextDirective(s, key, c)
    case None => []
    case Some(L) =>
      var m := MatchAt(s, key, L);
      var rest := MatchesFrom(s, key, m.end);
      OrderedCons(m, rest, c, |s|);
      [m] + rest
  }

  /** Every match of the scan is the matcher's match at a directive start. */
  lemma {:induction false} MatchesFound(s: string, key: string, c: nat)
    requires c <= |s|
    ensures Found(s, key, MatchesFrom(s, key, c))
    decreases |s| - c
  {
    var ms := MatchesFrom(s, key, c);
    var L := NextDirective(s, key, c);
    if L.Some? {
      var m := MatchAt(s, key, L.value);
      var rest := MatchesFrom(s, key, m.end);
      MatchesFound(s, key, m.end);
      assert ms == [m] + rest;
      forall i | 0 < i < |ms|
        ensures ms[i] == rest[i - 1]
      {
      }
    }
  }

  function Matches(s: string, key: string): seq<Match> {
    MatchesFrom(s, key, 0)
  }

  /** Every directive start at or after `c` lies inside one of the matches
      (it is a match's start or falls within the text an earlier match
      took), and that match reaches at least to the end of its keyword's
      line. */
  lemma MatchesCover(s: string, key: string, c: nat, t: nat)
    requires c <= t <= |s| && DirectiveAt(s, key, t)
    ensures var ms := MatchesFrom(s, key, c);
      exists i | 0 <= i < |ms| :: ms[i].start <= t < ms[i].end && NextLineEnd(s, ms[i].at) <= ms[i].end
  {
    var ms := MatchesFrom(s, key, c);
    var i := CoveringMatch(s, key, c, t);
    MatchesFound(s, key, c);
    MatchCoversLine(s, key, ms[i].start);
  }

  /** Every directive start of `s` lies in a match that reaches at least
      to the end of its keyword's line. */
  predicate AllCovered(s: string, key: string) {
    var ms := Matches(s, key);
    forall t | 0 <= t <= |s| && DirectiveAt(s, key, t) ::
      exists i | 0 <= i < |ms| :: ms[i].start <= t < ms[i].end && NextLineEnd(s, ms[i].at) <= ms[i].end
  }

  lemma EveryDirectiveCovered(s: string, key: string)
    ensures AllCovered(s, key)
  {
    forall t | 0 <= t <= |s| && DirectiveAt(s, key, t)
      ensures var ms := Matches(s, key);
        exists i | 0 <= i < |ms| :: ms[i].start <= t < ms[i].end && NextLineEnd(s, ms[i].at) <= ms[i].end
    {
      assert Matches(s, key) == MatchesFrom(s, key, 0);
      MatchesCover(s, key, 0, t);
    }
  }

  /** The index of the match that covers directive start `t`. */
  lemma {:induction false} CoveringMatch(s: string, key: string, c: nat, t: nat) returns (i: nat)
    requires c <= t <= |s| && DirectiveAt(s, key, t)
    ensures var ms := MatchesFrom(s, key, c);
      i < |ms| && ms[i].start <= t < ms[i].end
    decreases |s| - c
  {
    var L := NextDirective(s, key, c);
    assert L.Some? && L.value <= t;
    var m := MatchAt(s, key, L.value);
    if t >= m.end {
      var j := CoveringMatch(s, key, m.end, t);
      MatchesFromIndex(s, key, c, j + 1);
      i := j + 1;
    } else {
      MatchesFromIndex(s, key, c, 0);
      i := 0;
    }
  }

  /** The scan's matches, indexed: the first is the match at the next
      directive start, and the others are the scan from its end. */
  lemma MatchesFromIndex(s: string, key: string, c: nat, i: nat)
    requires c <= |s| && NextDirective(s, key, c).Some?
    ensures var m := MatchAt(s, key, NextDirective(s, key, c).value);
      var rest := MatchesFrom(s, key, m.end);
      && |MatchesFrom(s, key, c)| == |rest| + 1
      && (i == 0 ==> MatchesFrom(s, key, c)[i] == m)
      && (0 < i <= |rest| ==> MatchesFrom(s, key, c)[i] == rest[i - 1])
  {
    MatchesFromStep(s, key, c);
  }

  /** One step of the scan: the first match, then the scan from its end. */
  lemma MatchesFromStep(s: string, key: string, c: nat)
    requires c <= |s| && NextDirective(s, key, c).Some?
    ensures var m := MatchAt(s, key, NextDirective(s, key, c).value);
      MatchesFrom(s, key, c) == [m] + MatchesFrom(s, key, m.end)
  {
  }

  // ---------------------------------------------------------------------
  // Replacing.

  /** A stretch of the input: kept as is, or a match wrapped as
      `"/* " + match + " */"`. */
  datatype Piece = Kept(text: string) | Commented(text: string)

  /** The input cut at the matches. */
  function Pieces(s: string, c: nat, ms: seq<Match>): (ps: seq<Piece>)
    requires c <= |s| && Ordered(ms, c, |s|)
    ensures |ps| == 2 * |ms| + 1
    decreases |ms|
  {
    if ms == [] then [Kept(s[c..])]
    else
      OrderedTail(ms, c, |s|);
      [Kept(s[c..ms[0].start]), Commented(s[ms[0].start..ms[0].end])] + Pieces(s, ms[0].end, ms[1..])
  }

  /** The pieces' own text, end to end. */
  function Original(ps: seq<Piece>): string {
    if ps == [] then [] else ps[0].text + Original(ps[1..])
  }

  /** The replacement's output: commented pieces wrapped, the rest as is. */
  function Render(ps: seq<Piece>): string {
    if ps == [] then []
    else (if ps[0].Commented? then "/* " + ps[0].text + " */" else ps[0].text) + Render(ps[1..])
  }

  /** `Regex.Replace(s, pattern, m => "/* " + m.Value + " */")`. */
  function Replace(s: string, key: string): string {
    Render(Pieces(s, 0, Matches(s, key)))
  }

  /** The pieces cut the input without losing or reordering anything. */
  lemma {:induction false} PiecesRestore(s: string, c: nat, ms: seq<Match>)
    requires c <= |s| && Ordered(ms, c, |s|)
    ensures Original(Pieces(s, c, ms)) == s[c..]
    decreases |ms|
  {
    if ms != [] {
      var m := ms[0];
      OrderedTail(ms, c, |s|);
      var ps := Pieces(s, c, ms);
      var rest := Pieces(s, m.end, ms[1..]);
      PiecesRestore(s, m.end, ms[1..]);
      assert ps[2..] == rest;
      calc {
        Original(ps);
        s[c..m.start] + Original(ps[1..]);
        { assert ps[1..][1..] == rest; }
        s[c..m.start] + (s[m.start..m.end] + Original(rest));
        s[c..m.start] + (s[m.start..m.end] + s[m.end..]);
        { assert s[c..] == s[c..m.start] + s[m.start..m.end] + s[m.end..]; }
        s[c..];
      }
    }
  }

  lemma {:induction false} NewlineCountConcat(a: string, b: string)
    ensures NewlineCount(a + b) == NewlineCount(a) + NewlineCount(b)
  {
    if a != [] {
      assert (a + b)[1..] == a[1..] + b;
      NewlineCountConcat(a[1..], b);
    } else {
      assert a + b == b;
    }
  }

  /** Wrapping adds no line break: the output has the input's lines. */
  lemma {:induction false} RenderKeepsNewlines(ps: seq<Piece>)
    ensures NewlineCount(Render(ps)) == NewlineCount(Original(ps))
  {
    if ps != [] {
      RenderKeepsNewlines(ps[1..]);
      var t := ps[0].text;
      NewlineCountConcat(if ps[0].Commented? then "/* " + t + " */" else t, Render(ps[1..]));
      NewlineCountConcat(t, Original(ps[1..]));
      if ps[0].Commented? {
        NewlineCountConcat("/* " + t, " */");
        NewlineCountConcat("/* ", t);
      }
    }
  }

  /** The replacement keeps every line break, and deleting the inserted
      delimiters gives the input back. */
  lemma ReplaceRestores(s: string, key: string)
    ensures Original(Pieces(s, 0, Matches(s, key))) == s
    ensures NewlineCount(Replace(s, key)) == NewlineCount(s)
  {
    PiecesRestore(s, 0, Matches(s, key));
    RenderKeepsNewlines(Pieces(s, 0, Matches(s, key)));
  }

  /** The commented pieces are exactly the matches, in order. */
  lemma {:induction false} CommentedAreMatches(s: string, c: nat, ms: seq<Match>, i: nat)
    requires c <= |s| && Ordered(ms, c, |s|) && i < |ms|
    ensures Pieces(s, c, ms)[2 * i + 1] == Commented(s[ms[i].start..ms[i].end])
    ensures Pieces(s, c, ms)[2 * i].Kept?
    decreases i
  {
    if i > 0 {
      OrderedTail(ms, c, |s|);
      var ps := Pieces(s, c, ms);
      CommentedAreMatches(s, ms[0].end, ms[1..], i - 1);
      assert ps[2..] == Pieces(s, ms[0].end, ms[1..]);
      assert ps[2 * i + 1] == ps[2..][2 * (i - 1) + 1];
      assert ps[2 * i] == ps[2..][2 * (i - 1)];
    }
  }

  /** Group 1 of a match: the directive's argument. */
  function Group(s: string, m: Match): string
    requires m.argStart <= m.argEnd <= |s|
  {
    s[m.argStart..m.argEnd]
  }

  /** The group-1 values of `Regex.Matches`, in order. */
  function Groups(s: string, key: string): (gs: seq<string>)
    ensures |gs| == |Matches(s, key)|
  {
    var ms := Matches(s, key);
    seq(|ms|, i requires 0 <= i < |ms| => Group(s, ms[i]))
  }

  /** A group is one line's text with no whitespace at either end. */
  lemma GroupShapeAt(s: string, key: string, L: nat)
    requires DirectiveAt(s, key, L)
    ensures var m := MatchAt(s, key, L);
      var g := s[m.argStart..m.argEnd];
      '\n' !in g && (g == [] || (!IsSpace(g[0]) && !IsSpace(g[|g| - 1])))
  {
    var m := MatchAt(s, key, L);
    MatchAtSplits(s, key, L);
    var g := s[m.argStart..m.argEnd];
    forall k | 0 <= k < |g|
      ensures g[k] != '\n'
    {
      assert g[k] == s[m.argStart + k];
    }
    if g != [] {
      assert g[0] == s[m.argStart] && g[|g| - 1] == s[m.argEnd - 1];
    }
  }

  lemma GroupShape(s: string, key: string, i: nat)
    requires i < |Matches(s, key)|
    ensures var g := Groups(s, key)[i];
      '\n' !in g && (g == [] || (!IsSpace(g[0]) && !IsSpace(g[|g| - 1])))
  {
    var m := Matches(s, key)[i];
    MatchesFound(s, key, 0);
    GroupShapeAt(s, key, m.start);
  }

  // ---------------------------------------------------------------------
  // Worked examples.

  lemma RenderThree(a: string, b: string, c: string)
    ensures Render([Kept(a), Commented(b), Kept(c)]) == a + "/* " + b + " */" + c
  {
    var ps := [Kept(a), Commented(b), Kept(c)];
    assert ps[1..][1..][1..] == [];
    assert Render(ps[1..][1..]) == c;
  }

  lemma PiecesOne(s: string, c: nat, m: Match)
    requires c <= m.start && Within(m, |s|)
    ensures Pieces(s, c, [m]) == [Kept(s[c..m.start]), Commented(s[m.start..m.end]), Kept(s[m.end..])]
  {
    assert [m][1..] == [];
  }

  /** Commenting out a match that starts the text wraps its prefix. */
  lemma WrapPrefix(s: string, e: nat)
    requires e <= |s|
    ensures s[..0] + "/* " + s[0..e] + " */" + s[e..] == "/* " + s[..e] + " */" + s[e..]
  {
    assert s[..0] == [] && s[0..e] == s[..e];
  }

  /** Commenting out a match that spans the whole text wraps it. */
  lemma WrapWhole(s: string)
    ensures s[..0] + "/* " + s[0..|s|] + " */" + s[|s|..] == "/* " + s + " */"
  {
    assert s[..0] == [] && s[0..|s|] == s && s[|s|..] == [];
  }

  /** A text with exactly one match, starting at its first directive. */
  lemma SingleMatch(s: string, key: string, L: nat)
    requires NextDirective(s, key, 0) == Some(L)
    requires NextDirective(s, key, MatchAt(s, key, L).end) == None
    ensures var m := MatchAt(s, key, L);
      && Matches(s, key) == [m]
      && Groups(s, key) == [s[m.argStart..m.argEnd]]
      && Replace(s, key) == s[..m.start] + "/* " + s[m.start..m.end] + " */" + s[m.end..]
  {
    var m := MatchAt(s, key, L);
    MatchesFromStep(s, key, 0);
    assert MatchesFrom(s, key, m.end) == [];
    assert Matches(s, key) == [m];
    PiecesOne(s, 0, m);
    RenderThree(s[..m.start], s[m.start..m.end], s[m.end..]);
  }

  const AfterText: string := "#version 450\n\nx"
  const BeforeText: string := "\n#version 450"
  const NextLineText: string := "#include\na"

  lemma AfterTextMatch()
    ensures DirectiveAt(AfterText, Version, 0)
    ensures MatchAt(AfterText, Version, 0) == Match(0, 0, 9, 12, 13)
  {
    var s := AfterText;
    assert s[0..8] == Version;
    assert SpaceEnd(s, 8) == 9;
    assert NextLineEnd(s, 9) == 12;
    assert TrailStart(s, 9, 12) == 12;
    assert SpaceEnd(s, 12) == 14;
    assert LastLineEnd(s, 12, 14) == 13;
  }

  lemma AfterTextPieces()
    ensures AfterText[9..12] == "450"
    ensures "/* " + AfterText[..13] + " */" + AfterText[13..] == "/* #version 450\n */\nx"
  {
    assert AfterText[..13] == "#version 450\n" && AfterText[13..] == "\nx";
  }

  lemma AfterTextRest()
    ensures NextDirective(AfterText, Version, 13) == None
  {
    var s := AfterText;
    assert !DirectiveAt(s, Version, 15);
    assert !DirectiveAt(s, Version, 14);
    assert !DirectiveAt(s, Version, 13);
  }

  /** A blank line after a directive is absorbed by the trailing `\s*`:
      the comment closes on that line, which keeps its line break. */
  lemma BlankLineAfterExample(s: string)
    requires s == AfterText
    ensures Groups(s, Version) == ["450"]
    ensures Replace(s, Version) == "/* #version 450\n */\nx"
  {
    AfterTextMatch();
    AfterTextRest();
    SingleMatch(s, Version, 0);
    WrapPrefix(s, 13);
    AfterTextPieces();
  }

  lemma BeforeTextMatch()
    ensures DirectiveAt(BeforeText, Version, 0)
    ensures MatchAt(BeforeText, Version, 0) == Match(0, 1, 10, 13, 13)
  {
    var s := BeforeText;
    assert SpaceEnd(s, 0) == 1;
    assert s[1..9] == Version;
    assert SpaceEnd(s, 9) == 10;
    assert NextLineEnd(s, 10) == 13;
    assert TrailStart(s, 10, 13) == 13;
  }

  lemma BeforeTextPieces()
    ensures BeforeText[10..13] == "450"
    ensures "/* " + BeforeText + " */" == "/* \n#version 450 */"
  {
  }

  lemma BeforeTextRest()
    ensures NextDirective(BeforeText, Version, 13) == None
  {
    assert !DirectiveAt(BeforeText, Version, 13);
  }

  /** A blank line before a directive is absorbed by the leading `^\s*`:
      the comment opens on it. */
  lemma BlankLineBeforeExample(s: string)
    requires s == BeforeText
    ensures Groups(s, Version) == ["450"]
    ensures Replace(s, Version) == "/* \n#version 450 */"
  {
    BeforeTextMatch();
    BeforeTextRest();
    SingleMatch(s, Version, 0);
    WrapWhole(s);
    BeforeTextPieces();
  }

  lemma NextLineTextMatch()
    ensures DirectiveAt(NextLineText, Include, 0)
    ensures MatchAt(NextLineText, Include, 0) == Match(0, 0, 9, 10, 10)
  {
    var s := NextLineText;
    assert s[0..8] == Include;
    assert SpaceEnd(s, 8) == 9;
    assert NextLineEnd(s, 9) == 10;
    assert TrailStart(s, 9, 10) == 10;
  }

  lemma NextLineTextPieces()
    ensures NextLineText[9..10] == "a"
    ensures "/* " + NextLineText + " */" == "/* #include\na */"
  {
  }

  lemma NextLineTextRest()
    ensures NextDirective(NextLineText, Include, 10) == None
  {
    assert !DirectiveAt(NextLineText, Include, 10);
  }

  /** `\s+` crosses a line break: an `#include` with nothing after it on
      its line takes the next line as its argument. */
  lemma ArgumentOnNextLineExample(s: string)
    requires s == NextLineText
    ensures Groups(s, Include) == ["a"]
    ensures Replace(s, Include) == "/* #include\na */"
  {
    NextLineTextMatch();
    NextLineTextRest();
    SingleMatch(s, Include, 0);
    WrapWhole(s);
    NextLineTextPieces();
  }
}
