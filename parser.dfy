/**
  Turning the generated text into slides (`add_slides`, ai_presentation.py):
  the stripped text is cut into blocks at every blank line, each block into
  lines; a block of fewer than two lines is skipped, otherwise its stripped
  first line is the title and the remaining lines, rejoined, are the body.
 */
module SlideParser {
  import opened Optional
  import opened PyStr
  import opened Runs

  datatype Slide = Slide(title: string, body: string)

  /** Separates slides in the generated text. */
  const BlockSeparator: string := "\n\n"
  /** Separates the title line and the bullet lines of one slide. */
  const LineSeparator: string := "\n"

  /** `slides_content.strip().split("\n\n")`. */
  function Blocks(text: string): (r: seq<string>)
    ensures |r| >= 1
  {
    Split(Strip(text), BlockSeparator)
  }

  /** The lines of a block: `slide.split("\n")`. */
  function Lines(block: string): (r: seq<string>)
    ensures |r| >= 1
  {
    Split(block, LineSeparator)
  }

  /** One block: skipped (`None`) when it has fewer than two lines. */
  function ParseBlock(block: string): (r: Option<Slide>)
    ensures r.Some? ==> Strip(r.value.title) == r.value.title
  {
    var lines := Lines(block);
    if |lines| < 2 then None
    else
      StripIdempotent(lines[0]);
      Some(Slide(Strip(lines[0]), Join(lines[1..], LineSeparator)))
  }

  /** The outcome of parsing each block, in block order. */
  function ParsedBlocks(blocks: seq<string>): (r: seq<Option<Slide>>)
    ensures |r| == |blocks|
  {
    Map(blocks, ParseBlock)
  }

  /** Every slide the builder visits, in order: the slides of the kept blocks. */
  function Slides(text: string): (r: seq<Slide>)
    ensures |r| <= |Blocks(text)|
  {
    Values(ParsedBlocks(Blocks(text)))
  }

  /**
    The blocks partition the stripped text: joined with the blank-line
    separator they give it back, none contains the separator, and there is
    one block more than there are separators.
   */
  lemma BlocksPartitionText(text: string)
    ensures Join(Blocks(text), BlockSeparator) == Strip(text)
    ensures forall b :: b in Blocks(text) ==> !Contains(b, BlockSeparator)
    ensures |Blocks(text)| == Count(Strip(text), BlockSeparator) + 1
  {
    JoinSplit(Strip(text), BlockSeparator);
    SplitPiecesFree(Strip(text), BlockSeparator);
    SplitCount(Strip(text), BlockSeparator);
  }

  /** Split semantics is leftmost and non-overlapping: three newlines give the pieces "a" and "\nb". */
  lemma ThreeNewlines()
    ensures Split("a\n\n\nb", BlockSeparator) == ["a", "\nb"]
  {
    var s := "a\n\n\nb";
    assert s[1..3] == BlockSeparator;
    assert s[0..2][0] == 'a';
    SplitFirst(s, BlockSeparator, 1);
    assert s[..1] == "a" && s[3..] == "\nb";
    var t := "\nb";
    assert t[..2][1] == 'b';
    assert Find(t[1..], BlockSeparator).None?;
    assert Find(t, BlockSeparator).None?;
    assert Split(t, BlockSeparator) == [t];
  }

  /** The line separator occurs at `k` exactly when `s[k]` is a line break. */
  lemma NewlineOccurs(s: string, k: int)
    ensures OccursAt(s, LineSeparator, k) <==> 0 <= k < |s| && s[k] == '\n'
  {
    if 0 <= k < |s| {
      assert s[k..k + 1] == [s[k]];
    }
  }

  /** A block is kept exactly when it contains a line break. */
  lemma ParseBlockKept(block: string)
    ensures ParseBlock(block).Some? <==> '\n' in block
  {
    SplitSingle(block, LineSeparator);
    if '\n' in block {
      var k :| 0 <= k < |block| && block[k] == '\n';
      NewlineOccurs(block, k);
    } else {
      forall k | OccursAt(block, LineSeparator, k) ensures false {
        NewlineOccurs(block, k);
      }
    }
  }

  /**
    A block whose first line break is at index `k`: the title is the text
    before it, stripped, and the body is everything after it, unchanged. So
    first line, line break and body reconstruct the block.
   */
  lemma ParseBlockAt(block: string, k: nat)
    requires k < |block| && block[k] == '\n' && '\n' !in block[..k]
    ensures ParseBlock(block) == Some(Slide(Strip(block[..k]), block[k + 1..]))
    ensures block == block[..k] + LineSeparator + ParseBlock(block).value.body
  {
    var rest := block[k + 1..];
    var lines := Lines(block);
    assert lines == [block[..k]] + Lines(rest) by {
      LinesAt(block, k);
    }
    assert Join(lines[1..], LineSeparator) == rest by {
      assert lines[1..] == Lines(rest);
      JoinSplit(rest, LineSeparator);
    }
    assert block == block[..k] + LineSeparator + rest by {
      assert block == block[..k] + [block[k]] + rest;
    }
  }

  /** The lines of a block whose first line break is at `k`: the text before it, then the lines after it. */
  lemma LinesAt(block: string, k: nat)
    requires k < |block| && block[k] == '\n' && '\n' !in block[..k]
    ensures Lines(block) == [block[..k]] + Lines(block[k + 1..])
  {
    NewlineOccurs(block, k);
    forall j | 0 <= j < k ensures !OccursAt(block, LineSeparator, j) {
      NewlineOccurs(block, j);
      assert block[j] == block[..k][j];
    }
    SplitFirst(block, LineSeparator, k);
  }

  /** Stripping never introduces a character. */
  lemma StripKeepsOut(x: string, c: char)
    requires c !in x
    ensures c !in Strip(x)
  {
    StripIsStripped(x);
  }

  /** A suffix of a string free of the blank-line separator is free of it too. */
  lemma SuffixFree(b: string, m: nat)
    requires m <= |b| && !Contains(b, BlockSeparator)
    ensures !Contains(b[m..], BlockSeparator)
  {
    var t := b[m..];
    forall j | OccursAt(t, BlockSeparator, j) ensures Contains(b, BlockSeparator) {
      assert t[j..j + 2] == b[m + j..m + j + 2];
      assert OccursAt(b, BlockSeparator, m + j);
    }
  }

  /**
    Parsing the blocks one at a time: block `i` adds its slide to the slides
    of the blocks before it when it is kept and nothing otherwise.
   */
  lemma KeptStep(blocks: seq<string>, i: nat)
    requires i < |blocks|
    ensures var p := ParseBlock(blocks[i]);
            Values(ParsedBlocks(blocks[..i + 1]))
            == Values(ParsedBlocks(blocks[..i])) + (if p.Some? then [p.value] else [])
  {
    MapSnoc(blocks, i, ParseBlock);
    ValuesAppend(ParsedBlocks(blocks[..i]), [ParseBlock(blocks[i])]);
    ValuesSingle(ParseBlock(blocks[i]));
  }

  /**
    Parsing keeps the block order: the slides of any first blocks come
    before the slides of the remaining ones.
   */
  lemma SlidesInOrder(blocks: seq<string>, i: nat)
    requires i <= |blocks|
    ensures Values(ParsedBlocks(blocks))
            == Values(ParsedBlocks(blocks[..i])) + Values(ParsedBlocks(blocks[i..]))
  {
    assert blocks == blocks[..i] + blocks[i..];
    MapAppend(blocks[..i], blocks[i..], ParseBlock);
    ValuesAppend(ParsedBlocks(blocks[..i]), ParsedBlocks(blocks[i..]));
  }

  /** The slide of a kept block has a single-line title and, when the block has no blank line, neither has its body. */
  lemma ParsedSlideShape(b: string)
    requires ParseBlock(b).Some?
    ensures '\n' !in ParseBlock(b).value.title
    ensures !Contains(b, BlockSeparator) ==> !Contains(ParseBlock(b).value.body, BlockSeparator)
  {
    ParseBlockKept(b);
    var k := FirstNewline(b);
    ParseBlockAt(b, k);
    StripKeepsOut(b[..k], '\n');
    if !Contains(b, BlockSeparator) {
      SuffixFree(b, k + 1);
    }
  }

  /** Every parsed slide has a single-line title and a body free of blank-line separators. */
  lemma ParsedShape(blocks: seq<string>)
    requires forall b :: b in blocks ==> !Contains(b, BlockSeparator)
    ensures forall s :: s in Values(ParsedBlocks(blocks)) ==> '\n' !in s.title && !Contains(s.body, BlockSeparator)
  {
    forall s: Slide | s in Values(ParsedBlocks(blocks)) ensures '\n' !in s.title && !Contains(s.body, BlockSeparator) {
      ParsedShapeOf(blocks, s);
    }
  }

  /** The shape of one parsed slide, found through the block it came from. */
  lemma ParsedShapeOf(blocks: seq<string>, s: Slide)
    requires forall b :: b in blocks ==> !Contains(b, BlockSeparator)
    requires s in Values(ParsedBlocks(blocks))
    ensures '\n' !in s.title && !Contains(s.body, BlockSeparator)
  {
    var i := ValuesFrom(ParsedBlocks(blocks), s);
    var b := blocks[i];
    assert ParseBlock(b) == Some(s) by {
      MapAt(blocks, ParseBlock, i);
    }
    assert b in blocks;
    ParsedSlideShape(b);
  }

  /** The index of the first line break of a block that has one. */
  function FirstNewline(block: string): (k: nat)
    requires '\n' in block
    ensures k < |block| && block[k] == '\n' && '\n' !in block[..k]
    decreases |block|
  {
    if block[0] == '\n' then 0 else 1 + FirstNewline(block[1..])
  }

  /** The slides of any text have single-line titles and no blank line in their bodies. */
  lemma SlidesShape(text: string)
    ensures forall s :: s in Slides(text) ==> '\n' !in s.title && !Contains(s.body, BlockSeparator)
  {
    BlocksPartitionText(text);
    ParsedShape(Blocks(text));
  }
}
