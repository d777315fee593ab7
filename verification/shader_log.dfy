/** The diagnostic rewriting of `Shader.CompileFromSource`: the driver's
    info log is split into lines, every line is echoed, and a line that
    names a line of the resolved unit is followed by an `At: ` line giving
    the file and line it came from.

    Two forms are recognised: the labelled form `ERROR:...:N:...`, whose
    number is taken as is, and the terse form `0(N)...`, whose number is
    one-based and is decremented first. */
module ShaderLog {
  import opened Wrappers
  import opened Text
  import opened ResolvedShader
  import Int32

  predicate IsBreak(c: char) {
    c == '\r' || c == '\n'
  }

  predicate NoBreak(s: string) {
    forall i :: 0 <= i < |s| ==> !IsBreak(s[i])
  }

  /** `Regex.Split(log, "\r\n|\r|\n")`: the separators are matched left to
      right, a "\r\n" pair counting as one separator. */
  function SplitLog(s: string): (ls: seq<string>)
    ensures |ls| >= 1
    ensures forall i :: 0 <= i < |ls| ==> NoBreak(ls[i])
  {
    if s == [] then [""]
    else if |s| >= 2 && s[0] == '\r' && s[1] == '\n' then [""] + SplitLog(s[2..])
    else if IsBreak(s[0]) then [""] + SplitLog(s[1..])
    else
      var rest := SplitLog(s[1..]);
      [[s[0]] + rest[0]] + rest[1..]
  }

  // ---------------------------------------------------------------------
  // The two line-number patterns.

  /** The end of the run of digits starting at `i`. */
  function DigitRunEnd(line: string, i: nat): (e: nat)
    requires i <= |line|
    ensures i <= e <= |line| && AllDigits(line[i..e])
    ensures e == |line| || !IsDigit(line[e])
    decreases |line| - i
  {
    if i < |line| && IsDigit(line[i]) then
      var e := DigitRunEnd(line, i + 1);
      assert line[i..e] == [line[i]] + line[i + 1..e];
      e
    else i
  }

  /** `:([0-9]+):` matches at `p`: a colon, a run of digits, a colon. A
      shorter run is never followed by a colon, so the greedy run is the
      only candidate. */
  predicate ColonNumberAt(line: string, p: nat) {
    && p < |line| && line[p] == ':'
    && var e := DigitRunEnd(line, p + 1);
      p + 1 < e < |line| && line[e] == ':'
  }

  const ErrorPrefix: string := "ERROR:"

  /** The greedy `.*` of `^ERROR:.*:([0-9]+):.*$` backtracks from the end of
      the line, so the match uses the last `:N:` after the prefix: this
      searches the positions below `hi` from the top down. */
  function LastColonNumber(line: string, hi: nat): (p: Option<nat>)
    ensures p.Some? ==> |ErrorPrefix| <= p.value < hi && ColonNumberAt(line, p.value)
    ensures p.Some? ==> forall q | p.value < q < hi :: !ColonNumberAt(line, q)
    ensures p.None? ==> forall q | |ErrorPrefix| <= q < hi :: !ColonNumberAt(line, q)
  {
    if hi <= |ErrorPrefix| then None
    else if ColonNumberAt(line, hi - 1) then Some(hi - 1)
    else LastColonNumber(line, hi - 1)
  }

  /** The number the labelled form captures, if the line has that form. */
  function ErrorNumber(line: string): Option<nat> {
    if |line| >= |ErrorPrefix| && line[..|ErrorPrefix|] == ErrorPrefix then
      match LastColonNumber(line, |line|)
      case Some(p) => Some(DigitsValue(line[p + 1..DigitRunEnd(line, p + 1)]))
      case None => None
    else None
  }

  /** The number the terse form `^0\(([0-9]+)\)` captures, if the line has
      that form. */
  function TerseNumber(line: string): Option<nat> {
    if |line| >= 2 && line[0] == '0' && line[1] == '(' then
      var e := DigitRunEnd(line, 2);
      if 2 < e < |line| && line[e] == ')' then Some(DigitsValue(line[2..e])) else None
    else None
  }

  /** The resolved line a log line points at: the labelled form wins; the
      terse form is one-based. */
  function ReportedLine(line: string): (n: Option<int>)
    ensures ErrorNumber(line).Some? ==> n == Some(ErrorNumber(line).value as int)
    ensures ErrorNumber(line).None? && TerseNumber(line).Some? ==> n == Some(TerseNumber(line).value - 1)
    ensures n.None? <==> ErrorNumber(line).None? && TerseNumber(line).None?
  {
    match ErrorNumber(line)
    case Some(n) => Some(n)
    case None =>
      match TerseNumber(line)
      case Some(n) => Some(n - 1)
      case None => None
  }

  /** `int.Parse` throws `OverflowException` on the captured number: it
      exceeds `int.MaxValue`. Only the labelled form's number is parsed
      when that form matches. */
  predicate Overflows(line: string) {
    match ErrorNumber(line)
    case Some(n) => n >= Int32.Two31
    case None => TerseNumber(line).Some? && TerseNumber(line).value >= Int32.Two31
  }

  /** A line is parsed without overflow exactly when the line it names is
      an `int`: at most `int.MaxValue`, and at least -1 for the terse
      form. */
  lemma OverflowsIffOutOfRange(line: string)
    ensures ReportedLine(line).Some? ==>
      (Overflows(line) <==> !(-Int32.Two31 <= ReportedLine(line).value < Int32.Two31 - (if ErrorNumber(line).Some? then 0 else 1)))
    ensures ReportedLine(line).None? ==> !Overflows(line)
  {
  }

  /** The first log line whose number overflows, if any. */
  function FirstOverflow(lines: seq<string>): (k: Option<nat>)
    ensures k.Some? ==> k.value < |lines| && Overflows(lines[k.value])
    ensures k.Some? ==> forall j | 0 <= j < k.value :: !Overflows(lines[j])
    ensures k.None? ==> forall j | 0 <= j < |lines| :: !Overflows(lines[j])
  {
    if lines == [] then None
    else if Overflows(lines[0]) then Some(0)
    else
      match FirstOverflow(lines[1..])
      case Some(k) =>
        assert forall j | 1 <= j < k + 1 :: lines[j] == lines[1..][j - 1];
        Some(k + 1)
      case None =>
        assert forall j | 1 <= j < |lines| :: lines[j] == lines[1..][j - 1];
        None
  }

  /** The text printed at debug level after a failed link, or the
      `OverflowException` the first over-long line number throws before
      anything is printed. */
  function Diagnostic(blocks: seq<Block>, log: string): (r: Result<string>)
    requires |blocks| > 0
    ensures r.Failure? <==> exists i | 0 <= i < |SplitLog(log)| :: Overflows(SplitLog(log)[i])
    ensures r.Failure? ==> r.error == Overflow
    ensures r.Success? ==> r.value == DiagnosticText(blocks, log)
  {
    var lines := SplitLog(log);
    match FirstOverflow(lines)
    case Some(k) =>
      assert k < |SplitLog(log)| && Overflows(SplitLog(log)[k]);
      Failure(Overflow)
    case None => Success(DiagnosticText(blocks, log))
  }

  // ---------------------------------------------------------------------
  // The report.

  /** What is appended for one log line: the line itself, then its origin
      when it names a line. */
  function Annotate(blocks: seq<Block>, line: string): (r: seq<string>)
    requires |blocks| > 0
  {
    match ReportedLine(line)
    case Some(n) => [line, "At: " + GetLineOrigin(blocks, n)]
    case None => [line]
  }

  /** What each log line contributes, in order. */
  function Groups(blocks: seq<Block>, lines: seq<string>): (gs: seq<seq<string>>)
    requires |blocks| > 0
    ensures |gs| == |lines|
  {
    seq(|lines|, i requires 0 <= i < |lines| => Annotate(blocks, lines[i]))
  }

  /** The lines of the report, log line after log line. */
  function Report(blocks: seq<Block>, lines: seq<string>): seq<string>
    requires |blocks| > 0
  {
    Concat(Groups(blocks, lines))
  }

  /** The text printed at debug level after a failed link. */
  function DiagnosticText(blocks: seq<Block>, log: string): string
    requires |blocks| > 0
  {
    AppendLines(Report(blocks, SplitLog(log)))
  }

  /** How many of `lines` name a resolved line. */
  function Located(lines: seq<string>): (n: nat)
    ensures n <= |lines|
  {
    if lines == [] then 0
    else Located(lines[..|lines| - 1]) + (if ReportedLine(lines[|lines| - 1]).Some? then 1 else 0)
  }

  /** The report lines before log line `i`: one per earlier log line and
      one per earlier located line. */
  lemma {:induction false} GroupOffset(blocks: seq<Block>, lines: seq<string>, i: nat)
    requires |blocks| > 0 && i <= |lines|
    ensures PartsOffset(Groups(blocks, lines), i) == i + Located(lines[..i])
  {
    if i > 0 {
      GroupOffset(blocks, lines, i - 1);
      assert lines[..i][..i - 1] == lines[..i - 1];
    }
  }

  /** The report holds one line per log line plus one per located line. */
  lemma ReportLength(blocks: seq<Block>, lines: seq<string>)
    requires |blocks| > 0
    ensures |Report(blocks, lines)| == |lines| + Located(lines)
  {
    GroupOffset(blocks, lines, |lines|);
    ConcatLength(Groups(blocks, lines));
    assert lines[..|lines|] == lines;
  }

  /** Log line `i` is echoed at position `i + Located(lines[..i])` of the
      report, and, when it names a resolved line, the next report line is
      `At: ` and that line's origin; nothing else comes between it and the
      next log line. */
  lemma ReportShape(blocks: seq<Block>, lines: seq<string>, i: nat)
    requires |blocks| > 0 && i < |lines|
    ensures var r, o := Report(blocks, lines), i + Located(lines[..i]);
      && o < |r| && r[o] == lines[i]
      && (ReportedLine(lines[i]).Some? ==>
            o + 1 < |r| && r[o + 1] == "At: " + GetLineOrigin(blocks, ReportedLine(lines[i]).value))
      && i + 1 + Located(lines[..i + 1]) == o + (if ReportedLine(lines[i]).Some? then 2 else 1)
  {
    var gs := Groups(blocks, lines);
    var o := i + Located(lines[..i]);
    GroupAt(blocks, lines, i);
    AnnotateShape(blocks, lines[i]);
    LocatedStep(lines, i);
  }

  /** Group `i` sits in the report at offset `i + Located(lines[..i])`. */
  lemma GroupAt(blocks: seq<Block>, lines: seq<string>, i: nat)
    requires |blocks| > 0 && i < |lines|
    ensures var r, o, g := Report(blocks, lines), i + Located(lines[..i]), Annotate(blocks, lines[i]);
      o + |g| <= |r| && forall j | 0 <= j < |g| :: r[o + j] == g[j]
  {
    var gs := Groups(blocks, lines);
    GroupOffset(blocks, lines, i);
    ConcatPart(Report(blocks, lines), gs, i, i + Located(lines[..i]), gs[i]);
    SliceElements(Report(blocks, lines), i + Located(lines[..i]), gs[i]);
  }

  lemma AnnotateShape(blocks: seq<Block>, line: string)
    requires |blocks| > 0
    ensures var g := Annotate(blocks, line);
      && |g| == (if ReportedLine(line).Some? then 2 else 1) && g[0] == line
      && (ReportedLine(line).Some? ==> g[1] == "At: " + GetLineOrigin(blocks, ReportedLine(line).value))
  {
  }

  lemma LocatedStep(lines: seq<string>, i: nat)
    requires i < |lines|
    ensures Located(lines[..i + 1]) == Located(lines[..i]) + (if ReportedLine(lines[i]).Some? then 1 else 0)
  {
    assert lines[..i + 1][..i] == lines[..i];
  }

  // ---------------------------------------------------------------------
  // Relation to the '\n' splitting.

  /** A log without '\r' splits exactly as `Lines` does. */
  lemma {:induction false} SplitLogWithoutCr(s: string)
    requires '\r' !in s
    ensures SplitLog(s) == Lines(s)
  {
    if s != [] {
      SplitLogWithoutCr(s[1..]);
    }
  }

  /** Splitting undoes a '\n' join of break-free lines. */
  lemma SplitLogOfJoin(ls: seq<string>)
    requires |ls| > 0
    requires forall i :: 0 <= i < |ls| ==> NoBreak(ls[i])
    ensures SplitLog(JoinLines(ls)) == ls
  {
    JoinLinesHasNoCr(ls);
    SplitLogWithoutCr(JoinLines(ls));
    forall i | 0 <= i < |ls|
      ensures '\n' !in ls[i]
    {
      assert NoBreak(ls[i]);
    }
    LinesOfJoinLines(ls);
  }

  lemma {:induction false} JoinLinesHasNoCr(ls: seq<string>)
    requires |ls| > 0
    requires forall i :: 0 <= i < |ls| ==> NoBreak(ls[i])
    ensures '\r' !in JoinLines(ls)
  {
    assert NoBreak(ls[0]);
    if |ls| > 1 {
      JoinLinesHasNoCr(ls[1..]);
      assert JoinLines(ls) == ls[0] + "\n" + JoinLines(ls[1..]);
    }
  }

  lemma {:induction false} SplitLogOfBreakFree(s: string)
    requires NoBreak(s)
    ensures SplitLog(s) == [s]
  {
    if s != [] {
      SplitLogOfBreakFree(s[1..]);
      assert [s[0]] + s[1..] == s;
    }
  }

  /** A separator ends the line before it; a lone "\r" counts as one only
      when no '\n' follows it. */
  lemma {:induction false} SplitLogAtSeparator(a: string, sep: string, rest: string)
    requires NoBreak(a)
    requires sep == "\r\n" || sep == "\n" || (sep == "\r" && (rest == [] || rest[0] != '\n'))
    ensures SplitLog(a + sep + rest) == [a] + SplitLog(rest)
  {
    var s := a + sep + rest;
    if a == [] {
      assert s == sep + rest;
      if sep == "\r\n" {
        assert s[2..] == rest;
      } else {
        assert s[1..] == rest;
      }
    } else {
      assert s[1..] == a[1..] + sep + rest;
      SplitLogAtSeparator(a[1..], sep, rest);
      assert [a[0]] + a[1..] == a;
    }
  }

  /** "\r\n", "\r" and "\n" each end one line. */
  lemma SplitLogExample()
    ensures SplitLog("a\r\nb\rc\nd") == ["a", "b", "c", "d"]
  {
    SplitLogExampleTail();
    SplitLogAtSeparator("a", "\r\n", "b\rc\nd");
    assert "a" + "\r\n" + "b\rc\nd" == "a\r\nb\rc\nd";
  }

  lemma SplitLogExampleTail()
    ensures SplitLog("b\rc\nd") == ["b", "c", "d"]
  {
    SplitLogOfBreakFree("d");
    SplitLogAtSeparator("c", "\n", "d");
    assert "c" + "\n" + "d" == "c\nd";
    SplitLogAtSeparator("b", "\r", "c\nd");
    assert "b" + "\r" + "c\nd" == "b\rc\nd";
  }

  // ---------------------------------------------------------------------
  // The two forms on concrete lines.

  /** The labelled form takes the last `:N:` of the line. */
  lemma ErrorFormExample()
    ensures ReportedLine("ERROR: 0:12: x") == Some(12)
  {
    var l := "ERROR: 0:12: x";
    assert l[..6] == ErrorPrefix;
    assert DigitRunEnd(l, 9) == 11;
    assert ColonNumberAt(l, 8);
    assert !ColonNumberAt(l, 11);
    assert l[9..11] == "12";
    assert DigitsValue("12") == 12;
  }

  /** With two candidates, `:1:` and `:2:`, the later one is taken. */
  lemma LastNumberWinsExample()
    ensures ColonNumberAt("ERROR: 0:1:2:", 8) && ColonNumberAt("ERROR: 0:1:2:", 10)
    ensures ReportedLine("ERROR: 0:1:2:") == Some(2)
  {
    var l := "ERROR: 0:1:2:";
    assert l[..6] == ErrorPrefix;
    assert DigitRunEnd(l, 13) == 13;
    assert !ColonNumberAt(l, 12);
    assert DigitRunEnd(l, 12) == 12;
    assert !ColonNumberAt(l, 11);
    assert DigitRunEnd(l, 11) == 12;
    assert ColonNumberAt(l, 10);
    assert DigitRunEnd(l, 9) == 10;
    assert ColonNumberAt(l, 8);
    assert LastColonNumber(l, 13) == Some(10);
    assert l[11..12] == "2";
    assert DigitsValue("2") == 2;
  }

  /** The terse form is one-based. */
  lemma TerseFormExample()
    ensures ReportedLine("0(13): e") == Some(12)
  {
    var l := "0(13): e";
    assert l[0] != ErrorPrefix[0];
    assert DigitRunEnd(l, 2) == 4;
    assert l[2..4] == "13";
    assert DigitsValue("13") == 13;
  }

  /** A line of neither form is echoed alone. */
  lemma PlainLineExample()
    ensures ReportedLine("WARNING: 0:3: x") == None
  {
    var l := "WARNING: 0:3: x";
    assert l[0] != ErrorPrefix[0];
  }

  /** A run of digits ending before a non-digit (or at the end) is the
      greedy run. */
  lemma {:induction false} DigitRunEndOf(line: string, i: nat, e: nat)
    requires i <= e <= |line| && AllDigits(line[i..e])
    requires e == |line| || !IsDigit(line[e])
    ensures DigitRunEnd(line, i) == e
    decreases e - i
  {
    if i < e {
      assert IsDigit(line[i..e][0]);
      assert line[i + 1..e] == line[i..e][1..];
      DigitRunEndOf(line, i + 1, e);
    }
  }

  /** A terse line for any `n` names line `n - 1`; it throws exactly when
      `n` exceeds `int.MaxValue`, and then the whole diagnostic throws. */
  lemma TerseOverflowBoundary(blocks: seq<Block>, n: nat)
    requires |blocks| > 0
    ensures var line := "0(" + NatToString(n) + ")";
      && ReportedLine(line) == Some(n - 1)
      && (Overflows(line) <==> n > Int32.Two31 - 1)
      && (Diagnostic(blocks, line).Failure? <==> n >= Int32.Two31)
  {
    var digits := NatToString(n);
    var line := "0(" + digits + ")";
    var e := 2 + |digits|;
    assert line[2..e] == digits;
    assert line[e] == ')' && !IsDigit(line[e]);
    DigitRunEndOf(line, 2, e);
    DigitsValueOfNatToString(n);
    assert line[0] != ErrorPrefix[0];
    assert TerseNumber(line) == Some(n);
    forall k | 0 <= k < |line|
      ensures !IsBreak(line[k])
    {
      if 2 <= k < e {
        assert line[k] == digits[k - 2];
      }
    }
    SplitLogOfBreakFree(line);
    assert SplitLog(line)[0] == line;
  }
}
