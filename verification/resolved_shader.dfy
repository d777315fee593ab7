/** `ResolvedShader`: the text of a resolved compilation unit together with
    its provenance table, and `GetLineOrigin`, which maps a line number of
    the unit back to the file it came from. */
module ResolvedShader {
  import opened Text

  /** One row of the provenance table (`Tuple<int, string>`): the first line
      of a block and the block's name. */
  datatype Block = Block(start: int, name: string)

  datatype Resolved = Resolved(code: string, blocks: seq<Block>)

  /** Where the lookup loop stops: every block after the first one up to
      `b` starts at or before `line`, and `b` is the last block or the next
      one starts after `line`. */
  predicate IsSelected(blocks: seq<Block>, line: int, b: nat) {
    && b < |blocks|
    && (forall j | 0 < j <= b :: blocks[j].start <= line)
    && (b == |blocks| - 1 || blocks[b + 1].start > line)
  }

  /** The `for` loop of `GetLineOrigin`, continued from block `b`. */
  function SelectFrom(blocks: seq<Block>, line: int, b: nat): (r: nat)
    requires b < |blocks|
    requires forall j | 0 < j <= b :: blocks[j].start <= line
    ensures b <= r && IsSelected(blocks, line, r)
    decreases |blocks| - b
  {
    if b == |blocks| - 1 || blocks[b + 1].start > line then b
    else SelectFrom(blocks, line, b + 1)
  }

  /** The block `GetLineOrigin` reports for `line`. `Blocks[0]` is read
      unconditionally, so the table must not be empty. */
  function SelectBlock(blocks: seq<Block>, line: int): (b: nat)
    requires |blocks| > 0
    ensures IsSelected(blocks, line, b)
  {
    SelectFrom(blocks, line, 0)
  }

  function OriginText(offset: int, name: string): string {
    "line " + IntToString(offset) + " in " + name
  }

  /** `GetLineOrigin`: the offset of `line` from the start of the block the
      loop stops at, and that block's name. */
  function GetLineOrigin(blocks: seq<Block>, line: int): (s: string)
    requires |blocks| > 0
  {
    var b := SelectBlock(blocks, line);
    OriginText(line - blocks[b].start, blocks[b].name)
  }

  /** The loop's stopping point is determined by the table and the line. */
  lemma SelectionIsUnique(blocks: seq<Block>, line: int, b1: nat, b2: nat)
    requires IsSelected(blocks, line, b1) && IsSelected(blocks, line, b2)
    ensures b1 == b2
  {
  }

  predicate StrictlyIncreasing(blocks: seq<Block>) {
    forall i, j | 0 <= i < j < |blocks| :: blocks[i].start < blocks[j].start
  }

  /** In a table with strictly increasing starts, the selected block is the
      block whose range holds `line`: the last one starting at or before it
      (the first block also takes every line before its own start). */
  lemma SelectsContainingBlock(blocks: seq<Block>, line: int, i: nat)
    requires StrictlyIncreasing(blocks) && i < |blocks|
    requires i == 0 || blocks[i].start <= line
    requires i == |blocks| - 1 || line < blocks[i + 1].start
    ensures SelectBlock(blocks, line) == i
  {
    var b := SelectBlock(blocks, line);
  }

  /** With strictly increasing starts and `line` at or after the first
      start, the selected block is the last one starting at or before
      `line`, and the reported offset is non-negative and smaller than the
      distance to the next block. */
  lemma OffsetWithinBlock(blocks: seq<Block>, line: int)
    requires |blocks| > 0 && StrictlyIncreasing(blocks) && blocks[0].start <= line
    ensures var b := SelectBlock(blocks, line);
      && blocks[b].start <= line
      && (forall j | b < j < |blocks| :: blocks[j].start > line)
      && 0 <= line - blocks[b].start
      && (b < |blocks| - 1 ==> line - blocks[b].start < blocks[b + 1].start - blocks[b].start)
  {
  }

  /** Line `j` of block `i` (counting from 0) is reported as line `j` of
      that block's file. */
  lemma OriginWithinBlock(blocks: seq<Block>, i: nat, j: nat)
    requires StrictlyIncreasing(blocks) && i < |blocks|
    requires i == |blocks| - 1 || blocks[i].start + j < blocks[i + 1].start
    ensures GetLineOrigin(blocks, blocks[i].start + j) == OriginText(j, blocks[i].name)
  {
    SelectsContainingBlock(blocks, blocks[i].start + j, i);
  }

  /** Every line at or after the last block's start maps to the last block. */
  lemma PastLastBlock(blocks: seq<Block>, line: int)
    requires |blocks| > 0 && StrictlyIncreasing(blocks) && blocks[|blocks| - 1].start <= line
    ensures SelectBlock(blocks, line) == |blocks| - 1
  {
    SelectsContainingBlock(blocks, line, |blocks| - 1);
  }

  /** A line before the first start is reported against the first block,
      at a negative offset. */
  lemma BeforeFirstBlock(blocks: seq<Block>, line: int)
    requires |blocks| > 0 && StrictlyIncreasing(blocks) && line < blocks[0].start
    ensures SelectBlock(blocks, line) == 0
    ensures line - blocks[SelectBlock(blocks, line)].start < 0
  {
    SelectsContainingBlock(blocks, line, 0);
  }

  lemma LineOriginExample()
    ensures GetLineOrigin([Block(0, "header"), Block(3, "a.glsl"), Block(10, "b.glsl")], 12) == "line 2 in b.glsl"
  {
    var blocks := [Block(0, "header"), Block(3, "a.glsl"), Block(10, "b.glsl")];
    assert SelectBlock(blocks, 12) == 2;
    assert IntToString(2) == "2";
  }
}
