/** `ShaderSource.GetResolvedGlsl`: the compilation unit built from an entry
    file and everything it includes, and the provenance table that maps its
    lines back to the files they came from.

    The unit is the `#version` line, the repository's shader header, one
    `#define` line per macro, and then, for every file in dependency order, a
    `/* File: name */` marker line followed by the file's parsed code. Each
    piece is appended with `AppendLine`, modelled with a "\n" terminator. */
module ResolvedGlsl {
  import opened Text
  import opened ResolvedShader

  const HeaderBlockName: string := "Shader version, header and macros"

  /** One file of the unit, in emission order. */
  datatype Unit = Unit(filename: string, parsedCode: string)

  /** `CountLines`: the number of lines of `s`, one more than its '\n'
      count. */
  function CountLines(s: string): (n: nat)
    ensures n >= 1
  {
    NewlineCount(s) + 1
  }

  /** The count agrees with the lines the text splits into at '\n'. */
  lemma CountLinesIsLineCount(s: string)
    ensures CountLines(s) == |Lines(s)|
  {
  }

  function MacroLine(name: string, value: string): string {
    "#define " + name + " " + value
  }

  function Marker(filename: string): string {
    "/* File: " + filename + " */"
  }

  /** The version line, the header and the macro lines, in that order. */
  function Preamble(version: string, header: string, macros: seq<(string, string)>): (ps: seq<string>)
    ensures |ps| == 2 + |macros|
  {
    ["#version " + version, header] + seq(|macros|, i requires 0 <= i < |macros| => MacroLine(macros[i].0, macros[i].1))
  }

  /** A marker line and the parsed code of every file, in order. */
  function UnitPieces(units: seq<Unit>): (ps: seq<string>)
    ensures |ps| == 2 * |units|
  {
    if units == [] then [] else [Marker(units[0].filename), units[0].parsedCode] + UnitPieces(units[1..])
  }

  /** The text of the unit: its lines are the lines of the preamble, then
      the lines of every file piece, then the empty remainder after the last
      line terminator. */
  function ResolvedCode(version: string, header: string, macros: seq<(string, string)>, units: seq<Unit>): string {
    AppendLines(Preamble(version, header, macros) + UnitPieces(units))
  }

  lemma ResolvedCodeLines(version: string, header: string, macros: seq<(string, string)>, units: seq<Unit>)
    ensures Lines(ResolvedCode(version, header, macros, units))
         == FlatLines(Preamble(version, header, macros)) + FlatLines(UnitPieces(units)) + [""]
  {
    var ps := Preamble(version, header, macros) + UnitPieces(units);
    LinesOfAppendLines(ps, "");
    assert AppendLines(ps) + "" == AppendLines(ps);
    assert Lines("") == [""];
    FlatLinesConcat(Preamble(version, header, macros), UnitPieces(units));
  }

  /** The rows the `for` loop adds, with the line counter at `lines` before
      the first file: each file's row starts one past its marker, and the
      counter then moves past the file's lines. */
  function FileBlocks(lines: int, units: seq<Unit>): (bs: seq<Block>)
    ensures |bs| == |units|
    ensures forall k | 0 <= k < |units| :: bs[k].start > lines
    ensures |units| > 0 ==> bs[0].start == lines + 1
    decreases |units|
  {
    if units == [] then []
    else [Block(lines + 1, units[0].filename)] + FileBlocks(lines + 1 + CountLines(units[0].parsedCode), units[1..])
  }

  /** Row `k` carries the name of file `k`. */
  lemma {:induction false} FileBlockName(lines: int, units: seq<Unit>, k: nat)
    requires k < |units|
    ensures FileBlocks(lines, units)[k].name == units[k].filename
    decreases k
  {
    if k > 0 {
      var n := lines + 1 + CountLines(units[0].parsedCode);
      FileBlockName(n, units[1..], k - 1);
      assert FileBlocks(lines, units)[k] == FileBlocks(n, units[1..])[k - 1];
      assert units[1..][k - 1] == units[k];
    }
  }

  /** The rows start at strictly increasing lines. */
  lemma {:induction false} FileBlocksIncreasing(lines: int, units: seq<Unit>)
    ensures StrictlyIncreasing(FileBlocks(lines, units))
    decreases |units|
  {
    if units != [] {
      var n := lines + 1 + CountLines(units[0].parsedCode);
      var bs, rest := FileBlocks(lines, units), FileBlocks(n, units[1..]);
      FileBlocksIncreasing(n, units[1..]);
      assert bs == [Block(lines + 1, units[0].filename)] + rest;
      forall i, j | 0 <= i < j < |bs|
        ensures bs[i].start < bs[j].start
      {
        assert bs[j] == rest[j - 1];
        if i > 0 {
          assert bs[i] == rest[i - 1];
        }
      }
    }
  }

  /** The header row goes first, at line 0, before every file row. */
  lemma WithHeaderRow(lines: nat, units: seq<Unit>)
    ensures StrictlyIncreasing([Block(0, HeaderBlockName)] + FileBlocks(lines, units))
  {
    var bs := FileBlocks(lines, units);
    var all := [Block(0, HeaderBlockName)] + bs;
    FileBlocksIncreasing(lines, units);
    forall i, j | 0 <= i < j < |all|
      ensures all[i].start < all[j].start
    {
      assert all[j] == bs[j - 1];
      if i > 0 {
        assert all[i] == bs[i - 1];
      }
    }
  }

  /** A file's row covers its marker line and its own lines: the next row
      starts that many lines later. */
  lemma {:induction false} FileBlocksStep(lines: int, units: seq<Unit>, k: nat)
    requires k + 1 < |units|
    ensures FileBlocks(lines, units)[k + 1].start == FileBlocks(lines, units)[k].start + CountLines(units[k].parsedCode) + 1
    decreases |units|
  {
    var n := lines + 1 + CountLines(units[0].parsedCode);
    var bs := FileBlocks(lines, units);
    assert bs == [Block(lines + 1, units[0].filename)] + FileBlocks(n, units[1..]);
    if k > 0 {
      FileBlocksStep(n, units[1..], k - 1);
      assert units[1..][k - 1] == units[k];
    }
  }

  /** The table as the source builds it: the counter starts at
      `CountLines(header) + 1` and the `#define` lines are not counted. */
  function BlocksAsWritten(header: string, units: seq<Unit>): (bs: seq<Block>)
    ensures |bs| == |units| + 1
  {
    [Block(0, HeaderBlockName)] + FileBlocks(CountLines(header) + 1, units)
  }

  /** The table with the macro lines counted as well. */
  function Blocks(header: string, macros: seq<(string, string)>, units: seq<Unit>): (bs: seq<Block>)
    ensures |bs| == |units| + 1
  {
    [Block(0, HeaderBlockName)] + FileBlocks(CountLines(header) + 1 + |macros|, units)
  }

  /** Row `k + 1` of the table is the row of file `k`. */
  lemma BlocksRow(header: string, macros: seq<(string, string)>, units: seq<Unit>, k: nat)
    requires k < |units|
    ensures Blocks(header, macros, units)[k + 1] == FileBlocks(CountLines(header) + 1 + |macros|, units)[k]
  {
    var bs := FileBlocks(CountLines(header) + 1 + |macros|, units);
    assert Blocks(header, macros, units) == [Block(0, HeaderBlockName)] + bs;
  }

  function GetResolvedGlslAsWritten(version: string, header: string, macros: seq<(string, string)>, units: seq<Unit>): (r: Resolved)
    ensures |r.blocks| == |units| + 1 && r.blocks[0] == Block(0, HeaderBlockName) && StrictlyIncreasing(r.blocks)
  {
    WithHeaderRow(CountLines(header) + 1, units);
    Resolved(ResolvedCode(version, header, macros, units), BlocksAsWritten(header, units))
  }

  /** `GetResolvedGlsl` with the macro lines counted (see "Findings" in
      the README). */
  function GetResolvedGlsl(version: string, header: string, macros: seq<(string, string)>, units: seq<Unit>): (r: Resolved)
    ensures |r.blocks| == |units| + 1 && r.blocks[0] == Block(0, HeaderBlockName) && StrictlyIncreasing(r.blocks)
  {
    WithHeaderRow(CountLines(header) + 1 + |macros|, units);
    Resolved(ResolvedCode(version, header, macros, units), Blocks(header, macros, units))
  }

  // ---------------------------------------------------------------------
  // Provenance.

  predicate NoNewline(s: string) {
    '\n' !in s
  }

  /** The strings the unit is built from hold no line terminators besides
      those in the header and the parsed code. */
  predicate SingleLinePieces(version: string, macros: seq<(string, string)>, units: seq<Unit>) {
    && NoNewline(version)
    && (forall i | 0 <= i < |macros| :: NoNewline(macros[i].0) && NoNewline(macros[i].1))
    && (forall k | 0 <= k < |units| :: NoNewline(units[k].filename))
  }

  lemma {:induction false} FlatLinesOfSingleLines(ps: seq<string>)
    requires forall i | 0 <= i < |ps| :: NoNewline(ps[i])
    ensures FlatLines(ps) == ps
  {
    if ps != [] {
      LinesOfNewlineFree(ps[0]);
      FlatLinesOfSingleLines(ps[1..]);
    }
  }

  /** The preamble takes one line for the version, the header's lines, and
      one line per macro. */
  lemma PreambleLineCount(version: string, header: string, macros: seq<(string, string)>)
    requires NoNewline(version) && forall i | 0 <= i < |macros| :: NoNewline(macros[i].0) && NoNewline(macros[i].1)
    ensures |FlatLines(Preamble(version, header, macros))| == CountLines(header) + 1 + |macros|
  {
    var defs := seq(|macros|, i requires 0 <= i < |macros| => MacroLine(macros[i].0, macros[i].1));
    var pre := Preamble(version, header, macros);
    assert pre == ["#version " + version] + ([header] + defs);
    FlatLinesConcat(["#version " + version], [header] + defs);
    FlatLinesConcat([header], defs);
    LinesOfNewlineFree("#version " + version);
    assert FlatLines([header]) == Lines(header) + FlatLines([]);
    forall i | 0 <= i < |defs|
      ensures NoNewline(defs[i])
    {
      assert defs[i] == "#define " + macros[i].0 + " " + macros[i].1;
    }
    FlatLinesOfSingleLines(defs);
  }

  /** The lines of the file pieces, grouped: the marker line, then the
      file's lines, for every file. */
  function UnitParts(units: seq<Unit>): (parts: seq<seq<string>>)
    ensures |parts| == 2 * |units|
    ensures forall k | 0 <= k < |units| :: |parts[2 * k]| == 1 && parts[2 * k + 1] == Lines(units[k].parsedCode)
  {
    if units == [] then []
    else
      var rest := UnitParts(units[1..]);
      PrependParts(units, rest);
      [[Marker(units[0].filename)], Lines(units[0].parsedCode)] + rest
  }

  lemma PrependParts(units: seq<Unit>, rest: seq<seq<string>>)
    requires units != [] && |rest| == 2 * (|units| - 1)
    requires forall k | 0 <= k < |units| - 1 :: |rest[2 * k]| == 1 && rest[2 * k + 1] == Lines(units[1..][k].parsedCode)
    ensures var parts := [[Marker(units[0].filename)], Lines(units[0].parsedCode)] + rest;
      forall k | 0 <= k < |units| :: |parts[2 * k]| == 1 && parts[2 * k + 1] == Lines(units[k].parsedCode)
  {
    var parts := [[Marker(units[0].filename)], Lines(units[0].parsedCode)] + rest;
    forall k | 0 <= k < |units|
      ensures |parts[2 * k]| == 1 && parts[2 * k + 1] == Lines(units[k].parsedCode)
    {
      if k > 0 {
        var m := k - 1;
        assert parts[2 * k] == rest[2 * m];
        assert parts[2 * k + 1] == rest[2 * m + 1];
        assert units[1..][m] == units[k];
      }
    }
  }

  lemma {:induction false} UnitPartsAreUnitLines(units: seq<Unit>)
    requires forall m | 0 <= m < |units| :: NoNewline(units[m].filename)
    ensures FlatLines(UnitPieces(units)) == Concat(UnitParts(units))
    decreases |units|
  {
    if units != [] {
      var u, ps := units[0], UnitPieces(units[1..]);
      UnitPartsAreUnitLines(units[1..]);
      MarkerIsOneLine(u.filename);
      assert UnitPieces(units) == [Marker(u.filename)] + ([u.parsedCode] + ps);
      assert ([Marker(u.filename)] + ([u.parsedCode] + ps))[1..] == [u.parsedCode] + ps;
      assert ([u.parsedCode] + ps)[1..] == ps;
      var parts := UnitParts(units);
      assert parts[1..] == [Lines(u.parsedCode)] + UnitParts(units[1..]);
      assert parts[1..][1..] == UnitParts(units[1..]);
    }
  }

  lemma MarkerIsOneLine(filename: string)
    requires NoNewline(filename)
    ensures Lines(Marker(filename)) == [Marker(filename)]
  {
    assert Marker(filename) == "/* File: " + filename + " */";
    LinesOfNewlineFree(Marker(filename));
  }

  /** The lines before file `k`'s code (its marker included) number exactly
      the distance from the counter to the file's row. */
  lemma FileRowOffset(lines: int, units: seq<Unit>, k: nat)
    requires k < |units|
    ensures PartsOffset(UnitParts(units), 2 * k + 1) == FileBlocks(lines, units)[k].start - lines
  {
    RowOffset(UnitParts(units), lines, units, k);
  }

  /** `FileRowOffset` for any grouping with one marker line and then the
      file's lines per file. */
  lemma {:induction false} RowOffset(parts: seq<seq<string>>, lines: int, units: seq<Unit>, k: nat)
    requires |parts| == 2 * |units| && k < |units|
    requires forall m | 0 <= m < |units| :: |parts[2 * m]| == 1 && |parts[2 * m + 1]| == CountLines(units[m].parsedCode)
    ensures PartsOffset(parts, 2 * k + 1) == FileBlocks(lines, units)[k].start - lines
  {
    if k > 0 {
      RowOffset(parts, lines, units, k - 1);
      FileBlocksStep(lines, units, k - 1);
      assert PartsOffset(parts, 2 * k + 1) == PartsOffset(parts, 2 * k - 1) + |parts[2 * k - 1]| + |parts[2 * k]|;
    }
  }

  /** Within the file pieces, the lines from file `k`'s row start on, as
      many as the file has, are exactly the file's lines. */
  lemma UnitLinesAt(lines: int, units: seq<Unit>, k: nat)
    requires forall m | 0 <= m < |units| :: NoNewline(units[m].filename)
    requires k < |units|
    ensures var at := FileBlocks(lines, units)[k].start - lines;
      var n := CountLines(units[k].parsedCode);
      && 0 <= at && at + n <= |FlatLines(UnitPieces(units))|
      && FlatLines(UnitPieces(units))[at..at + n] == Lines(units[k].parsedCode)
  {
    var parts := UnitParts(units);
    FileRowOffset(lines, units, k);
    UnitPartsAreUnitLines(units);
    ConcatPart(FlatLines(UnitPieces(units)), parts, 2 * k + 1, FileBlocks(lines, units)[k].start - lines, Lines(units[k].parsedCode));
  }

  /** The rows of file `k` in the unit are exactly the lines of its parsed
      code, and every line among them maps back to file `k`. */
  lemma ResolvedLineProvenance(version: string, header: string, macros: seq<(string, string)>, units: seq<Unit>, k: nat)
    requires SingleLinePieces(version, macros, units)
    requires k < |units|
    ensures var r := GetResolvedGlsl(version, header, macros, units);
      var start, n := r.blocks[k + 1].start, CountLines(units[k].parsedCode);
      && 0 <= start && start + n <= |Lines(r.code)|
      && Lines(r.code)[start..start + n] == Lines(units[k].parsedCode)
      && r.blocks[k + 1].name == units[k].filename
      && (forall line | start <= line < start + n :: SelectBlock(r.blocks, line) == k + 1)
  {
    ProvenanceLines(version, header, macros, units, k);
    ProvenanceSelect(header, macros, units, k);
  }

  lemma ProvenanceLines(version: string, header: string, macros: seq<(string, string)>, units: seq<Unit>, k: nat)
    requires SingleLinePieces(version, macros, units)
    requires k < |units|
    ensures var start, n := Blocks(header, macros, units)[k + 1].start, CountLines(units[k].parsedCode);
      var code := ResolvedCode(version, header, macros, units);
      && 0 <= start && start + n <= |Lines(code)|
      && Lines(code)[start..start + n] == Lines(units[k].parsedCode)
  {
    var base := CountLines(header) + 1 + |macros|;
    var pre := FlatLines(Preamble(version, header, macros));
    var mid := FlatLines(UnitPieces(units));
    var lines := Lines(ResolvedCode(version, header, macros, units));
    var part := Lines(units[k].parsedCode);
    var start := Blocks(header, macros, units)[k + 1].start;
    var at := FileBlocks(base, units)[k].start - base;
    assert lines == pre + mid + [""] by {
      ResolvedCodeLines(version, header, macros, units);
    }
    assert 0 <= at && at + |part| <= |mid| && mid[at..at + |part|] == part by {
      UnitLinesAt(base, units, k);
      CountLinesIsLineCount(units[k].parsedCode);
    }
    assert start == |pre| + at by {
      PreambleLineCount(version, header, macros);
      BlocksRow(header, macros, units, k);
    }
    assert CountLines(units[k].parsedCode) == |part| by {
      CountLinesIsLineCount(units[k].parsedCode);
    }
    RowSlice(lines, pre, mid, start, at, CountLines(units[k].parsedCode), part);
  }

  /** The slice step of `ProvenanceLines`, over plain sequences. */
  lemma RowSlice(lines: seq<string>, pre: seq<string>, mid: seq<string>, start: int, at: int, n: int, part: seq<string>)
    requires lines == pre + mid + [""]
    requires 0 <= at && at + |part| <= |mid| && mid[at..at + |part|] == part
    requires start == |pre| + at && n == |part|
    ensures 0 <= start && start + n <= |lines| && lines[start..start + n] == part
  {
    SliceThrough(lines, pre, mid, [""], at, part);
  }

  /** Every line of file `k`'s row is selected as a line of that row, and
      the row carries the file's name. */
  lemma ProvenanceSelect(header: string, macros: seq<(string, string)>, units: seq<Unit>, k: nat)
    requires k < |units|
    ensures var blocks, n := Blocks(header, macros, units), CountLines(units[k].parsedCode);
      && (forall line | blocks[k + 1].start <= line < blocks[k + 1].start + n :: SelectBlock(blocks, line) == k + 1)
      && blocks[k + 1].name == units[k].filename
  {
    var base := CountLines(header) + 1 + |macros|;
    var blocks, bs := Blocks(header, macros, units), FileBlocks(base, units);
    WithHeaderRow(base, units);
    FileBlockName(base, units, k);
    assert blocks[k + 1] == bs[k];
    if k + 1 < |units| {
      FileBlocksStep(base, units, k);
      assert blocks[k + 2] == bs[k + 1];
    }
    forall line | blocks[k + 1].start <= line < blocks[k + 1].start + CountLines(units[k].parsedCode)
      ensures SelectBlock(blocks, line) == k + 1
    {
      SelectsContainingBlock(blocks, line, k + 1);
    }
  }

  /** `GetLineOrigin` reports line `j` of file `k`'s row as line `j` of
      that file. */
  lemma FileLineOrigin(version: string, header: string, macros: seq<(string, string)>, units: seq<Unit>, k: nat, j: nat)
    requires k < |units| && j < CountLines(units[k].parsedCode)
    ensures var r := GetResolvedGlsl(version, header, macros, units);
      GetLineOrigin(r.blocks, r.blocks[k + 1].start + j) == OriginText(j, units[k].filename)
  {
    ProvenanceSelect(header, macros, units, k);
    var blocks := Blocks(header, macros, units);
    assert SelectBlock(blocks, blocks[k + 1].start + j) == k + 1;
  }

  // ---------------------------------------------------------------------
  // The table as written.

  /** As written, every file row starts one line earlier per macro than the
      file's first line. */
  lemma AsWrittenShiftedByMacros(header: string, macros: seq<(string, string)>, units: seq<Unit>)
    ensures forall k | 0 < k < |units| + 1 ::
      BlocksAsWritten(header, units)[k].start == Blocks(header, macros, units)[k].start - |macros|
  {
    forall k | 0 < k < |units| + 1
      ensures BlocksAsWritten(header, units)[k].start == Blocks(header, macros, units)[k].start - |macros|
    {
      AsWrittenRow(header, macros, units, k - 1);
    }
  }

  lemma AsWrittenRow(header: string, macros: seq<(string, string)>, units: seq<Unit>, k: nat)
    requires k < |units|
    ensures BlocksAsWritten(header, units)[k + 1].start == Blocks(header, macros, units)[k + 1].start - |macros|
  {
    var base := CountLines(header) + 1;
    ShiftedRow(base, |macros|, units, k);
    assert BlocksAsWritten(header, units)[k + 1].start == FileBlocks(base, units)[k].start;
    assert Blocks(header, macros, units)[k + 1].start == FileBlocks(base + |macros|, units)[k].start;
  }

  /** The two tables agree exactly when there are no macros or no files. */
  lemma AsWrittenAgreesIffNoMacros(header: string, macros: seq<(string, string)>, units: seq<Unit>)
    ensures (BlocksAsWritten(header, units) == Blocks(header, macros, units)) <==> (|macros| == 0 || |units| == 0)
  {
    var base := CountLines(header) + 1;
    if |macros| == 0 {
      assert base + |macros| == base;
    } else if |units| > 0 {
      assert BlocksAsWritten(header, units)[1].start == base + 1;
      assert Blocks(header, macros, units)[1].start == base + |macros| + 1;
    }
  }

  /** Moving the counter by `d` moves row `k` by `d`. */
  lemma {:induction false} ShiftedRow(lines: int, d: int, units: seq<Unit>, k: nat)
    requires k < |units|
    ensures FileBlocks(lines, units)[k].start == FileBlocks(lines + d, units)[k].start - d
    decreases k
  {
    if k > 0 {
      var n := lines + 1 + CountLines(units[0].parsedCode);
      ShiftedRow(n, d, units[1..], k - 1);
      assert FileBlocks(lines, units)[k].start == FileBlocks(n, units[1..])[k - 1].start;
      assert FileBlocks(lines + d, units)[k].start == FileBlocks(n + d, units[1..])[k - 1].start;
    }
  }

  const ExampleUnits: seq<Unit> := [Unit("f.glsl", "x")]
  const ExampleMacros: seq<(string, string)> := [("A", "1")]

  /** One macro and one single-line file: the file's only line is line 4 of
      the unit (counting from 0). As written it is reported as line 1 of the
      file; counting the macro line reports it as line 0. */
  lemma MacroMisattributionExample()
    ensures var written := GetResolvedGlslAsWritten("450", "", ExampleMacros, ExampleUnits);
      var fixed := GetResolvedGlsl("450", "", ExampleMacros, ExampleUnits);
      && 4 < |Lines(written.code)| && Lines(written.code)[4] == "x"
      && GetLineOrigin(written.blocks, 4) == "line 1 in f.glsl"
      && GetLineOrigin(fixed.blocks, 4) == "line 0 in f.glsl"
  {
    ExampleLine();
    ExampleWrittenOrigin();
    ExampleFixedOrigin();
    ExampleOriginTexts();
  }

  lemma ExampleLine()
    ensures var code := ResolvedCode("450", "", ExampleMacros, ExampleUnits);
      4 < |Lines(code)| && Lines(code)[4] == "x"
  {
    ExampleTables();
    ExampleSingleLine();
    ProvenanceLines("450", "", ExampleMacros, ExampleUnits, 0);
    LinesOfNewlineFree("x");
    var ls := Lines(ResolvedCode("450", "", ExampleMacros, ExampleUnits));
    assert ls[4..5] == ["x"];
    assert ls[4] == ls[4..5][0];
  }

  lemma ExampleWrittenOrigin()
    ensures GetLineOrigin(BlocksAsWritten("", ExampleUnits), 4) == OriginText(1, "f.glsl")
  {
    ExampleTables();
    PastLastBlock(BlocksAsWritten("", ExampleUnits), 4);
  }

  lemma ExampleFixedOrigin()
    ensures GetLineOrigin(Blocks("", ExampleMacros, ExampleUnits), 4) == OriginText(0, "f.glsl")
  {
    ExampleTables();
    PastLastBlock(Blocks("", ExampleMacros, ExampleUnits), 4);
  }

  lemma ExampleOriginTexts()
    ensures OriginText(1, "f.glsl") == "line 1 in f.glsl"
    ensures OriginText(0, "f.glsl") == "line 0 in f.glsl"
  {
    assert IntToString(1) == "1";
    assert IntToString(0) == "0";
  }

  lemma ExampleSingleLine()
    ensures SingleLinePieces("450", ExampleMacros, ExampleUnits)
  {
    assert ExampleUnits[0].filename == "f.glsl";
    assert ExampleMacros[0] == ("A", "1");
  }

  lemma ExampleTables()
    ensures BlocksAsWritten("", ExampleUnits) == [Block(0, HeaderBlockName), Block(3, "f.glsl")]
    ensures Blocks("", ExampleMacros, ExampleUnits) == [Block(0, HeaderBlockName), Block(4, "f.glsl")]
  {
    var units := ExampleUnits;
    LinesOfNewlineFree("");
    LinesOfNewlineFree("x");
    assert units[1..] == [];
    assert FileBlocks(2, units) == [Block(3, "f.glsl")] + FileBlocks(3, []);
    assert FileBlocks(3, units) == [Block(4, "f.glsl")] + FileBlocks(4, []);
  }
}
