// The block reader of the studio's markdown (studio/src/lib/markdown.ts:30-126): headings, paragraphs, lists,
// fenced code (section 4.5 of the GitHub Flavored Markdown spec) and, in rich mode, pipe tables (section 4.10).
module MarkdownBlocks {
  import opened Wrappers
  import opened Strings
  import opened MarkdownTables

  datatype Block =
    | Heading(text: string)
    | Paragraph(text: string)
    | List(ordered: bool, items: seq<string>)
    | Code(text: string)
    | Table(header: seq<string>, rows: seq<seq<string>>)

  // ---- what a line opens ----

  predicate IsBlank(line: string) {
    Trim(line) == ""
  }

  const FENCE := "```"

  predicate IsFence(line: string) {
    StartsWith(TrimStart(line), FENCE)
  }

  predicate IsHeading(line: string) {
    var hashes := HashRun(line);
    1 <= hashes <= 6 && hashes < |line| && IsSpace(line[hashes])
  }

  function HeadingText(line: string): string {
    Trim(line[HashRun(line)..])
  }

  /** The list marker at the front of an unindented line: whether it is a number, and its length. */
  datatype Marker = NoMarker | Marker(ordered: bool, width: nat)

  function MarkerOf(rest: string): Marker {
    var digits := DigitRun(rest);
    if |rest| >= 2 && (rest[0] == '-' || rest[0] == '*' || rest[0] == '+') && IsSpace(rest[1]) then Marker(false, 1)
    else if digits >= 1 && digits + 1 < |rest| && (rest[digits] == '.' || rest[digits] == ')') && IsSpace(rest[digits + 1]) then Marker(true, digits + 1)
    else NoMarker
  }

  /** Whether a line is a list item, and if so of an ordered list. */
  function ListMarker(line: string): Option<bool> {
    var marker := MarkerOf(TrimStart(line));
    if marker.Marker? then Some(marker.ordered) else None
  }

  function ItemText(line: string): string {
    var rest := TrimStart(line);
    var marker := MarkerOf(rest);
    if marker.Marker? && marker.width <= |rest| then TrimStart(rest[marker.width..]) else line
  }

  /** A line with what the reader's tests say of it: what it opens, its cells as a table row. */
  datatype Line = Line(
    text: string, blank: bool, fence: bool, heading: bool, item: Option<bool>,
    piped: bool, separator: bool, cells: seq<string>)

  function Tested(text: string): Line {
    Line(text, IsBlank(text), IsFence(text), IsHeading(text), ListMarker(text),
         PIPE in text, IsSeparatorRow(text), Cells(text))
  }

  /** Whether a line starts a block of its own rather than continuing a paragraph. */
  predicate OpensBlock(line: Line) {
    line.blank || line.heading || line.fence || line.item.Some?
  }

  /** Whether a pipe table starts at a line: a row with a pipe, then a separator row with as many cells. */
  predicate TableStartsAt(lines: seq<Line>, i: nat)
    requires i < |lines|
  {
    i + 1 < |lines| && lines[i].piped && lines[i + 1].separator && |lines[i].cells| == |lines[i + 1].cells|
  }

  // ---- where each reader stops ----

  datatype Reader = CodeReader | ListReader(ordered: bool) | ParagraphReader(rich: bool) | TableReader

  predicate Stops(lines: seq<Line>, reader: Reader, i: nat)
    requires i < |lines|
  {
    match reader
    case CodeReader => lines[i].fence
    case ListReader(ordered) => lines[i].item != Some(ordered)
    case ParagraphReader(rich) => OpensBlock(lines[i]) || (rich && TableStartsAt(lines, i))
    case TableReader => !lines[i].piped || OpensBlock(lines[i])
  }

  /** The first line at or after `i` where a reader stops, or the end. */
  function EndFrom(lines: seq<Line>, reader: Reader, i: nat): (end: nat)
    ensures i <= |lines| ==> i <= end <= |lines|
    decreases |lines| - i
  {
    if i >= |lines| || Stops(lines, reader, i) then i else EndFrom(lines, reader, i + 1)
  }

  // ---- the block at a line ----

  function Texts(lines: seq<Line>): seq<string> {
    if lines == [] then [] else Texts(lines[..|lines| - 1]) + [lines[|lines| - 1].text]
  }

  function Trims(lines: seq<Line>): seq<string> {
    if lines == [] then [] else Trims(lines[..|lines| - 1]) + [Trim(lines[|lines| - 1].text)]
  }

  function ItemTexts(lines: seq<Line>): (items: seq<string>)
    ensures |items| == |lines|
  {
    if lines == [] then [] else ItemTexts(lines[..|lines| - 1]) + [ItemText(lines[|lines| - 1].text)]
  }

  function FitRows(lines: seq<Line>, width: nat): (rows: seq<seq<string>>)
    ensures |rows| == |lines|
  {
    if lines == [] then [] else FitRows(lines[..|lines| - 1], width) + [FitRow(lines[|lines| - 1].cells, width)]
  }

  /** The reader a line that is not blank calls for, None for a heading, which is a line of its own. */
  function ReaderFor(line: Line, startsTable: bool, rich: bool): Option<Reader> {
    if line.fence then Some(CodeReader)
    else if line.heading then None
    else if line.item.Some? then Some(ListReader(line.item.value))
    else if startsTable then Some(TableReader)
    else Some(ParagraphReader(rich))
  }

  function ReaderAt(lines: seq<Line>, i: nat, rich: bool): (reader: Option<Reader>)
    requires i < |lines|
    ensures reader == Some(TableReader) ==> TableStartsAt(lines, i)
  {
    ReaderFor(lines[i], rich && TableStartsAt(lines, i), rich)
  }

  /** The line where a reader starts looking for its end. */
  function FirstTried(reader: Reader, i: nat): nat {
    match reader
    case ListReader(_) => i
    case TableReader => i + 2
    case _ => i + 1
  }

  /** The line after the block read at `i`; a closing fence is the block's own. */
  function NextOf(lines: seq<Line>, reader: Option<Reader>, i: nat): nat {
    if reader.None? then i + 1
    else EndFrom(lines, reader.value, FirstTried(reader.value, i)) + if reader.value.CodeReader? then 1 else 0
  }

  /** The first line whose text goes into the block as the reader takes it. */
  function InsideFrom(reader: Reader, i: nat): nat {
    match reader
    case CodeReader => i + 1
    case TableReader => i + 2
    case _ => i
  }

  function BlockFrom(reader: Reader, line: Line, inside: seq<Line>): Block {
    match reader
    case CodeReader => Code(Join(Texts(inside), "\n"))
    case ListReader(ordered) => List(ordered, ItemTexts(inside))
    case ParagraphReader(_) => Paragraph(Join(Trims(inside), " "))
    case TableReader => Table(line.cells, FitRows(inside, |line.cells|))
  }

  function BlockOf(lines: seq<Line>, reader: Option<Reader>, i: nat): Block
    requires i < |lines| && (reader == Some(TableReader) ==> i + 1 < |lines|)
  {
    if reader.None? then Heading(HeadingText(lines[i].text))
    else
      var end := EndFrom(lines, reader.value, FirstTried(reader.value, i));
      BlockFrom(reader.value, lines[i], lines[InsideFrom(reader.value, i)..end])
  }

  function NextAt(lines: seq<Line>, i: nat, rich: bool): (next: nat)
    requires i < |lines|
    ensures i < next
  {
    NextOf(lines, ReaderAt(lines, i, rich), i)
  }

  function BlockAt(lines: seq<Line>, i: nat, rich: bool): Block
    requires i < |lines|
  {
    BlockOf(lines, ReaderAt(lines, i, rich), i)
  }

  /** The lines where the blocks from line `i` on start. */
  function StartsFrom(lines: seq<Line>, i: nat, rich: bool): seq<nat>
    decreases |lines| - i
  {
    if i >= |lines| then []
    else if lines[i].blank then StartsFrom(lines, i + 1, rich)
    else [i] + StartsFrom(lines, NextAt(lines, i, rich), rich)
  }

  /** The end of the span of the block at `i`: code without a closing fence ends with the text. */
  function SpanEnd(lines: seq<Line>, i: nat, rich: bool): nat
    requires i < |lines|
  {
    if NextAt(lines, i, rich) <= |lines| then NextAt(lines, i, rich) else |lines|
  }

  /** The blocks are those read at these lines. */
  ghost predicate AreBlocks(lines: seq<Line>, rich: bool, starts: seq<nat>, blocks: seq<Block>) {
    && |blocks| == |starts|
    && forall p {:trigger blocks[p]} {:trigger starts[p]} :: 0 <= p < |starts| ==> starts[p] < |lines| && blocks[p] == BlockAt(lines, starts[p], rich)
  }

  // ---- the readers as they run ----

  /** Passing a line the reader does not stop at leaves its end where it is. */
  lemma {:induction false} EndPasses(lines: seq<Line>, reader: Reader, i: nat, j: nat)
    requires i <= j <= |lines|
    requires forall k :: i <= k < j ==> !Stops(lines, reader, k)
    ensures EndFrom(lines, reader, i) == EndFrom(lines, reader, j)
    decreases j - i
  {
    if i < j {
      EndPasses(lines, reader, i + 1, j);
    }
  }

  /** Reads a fenced code block from its fence line. */
  method ReadCode(lines: seq<Line>, start: nat) returns (block: Block, next: nat)
    requires start < |lines| && lines[start].fence
    ensures block == BlockOf(lines, Some(CodeReader), start) && next == NextOf(lines, Some(CodeReader), start)
  {
    var end := start + 1;
    while end < |lines| && !lines[end].fence
      invariant start + 1 <= end <= |lines|
      invariant EndFrom(lines, CodeReader, start + 1) == EndFrom(lines, CodeReader, end)
    {
      end := end + 1;
    }
    block, next := Code(Join(Texts(lines[start + 1..end]), "\n")), end + 1;
  }

  lemma {:induction false} ItemTextsPush(lines: seq<Line>, start: nat, next: nat)
    requires start <= next < |lines|
    ensures ItemTexts(lines[start..next + 1]) == ItemTexts(lines[start..next]) + [ItemText(lines[next].text)]
  {
    var longer := lines[start..next + 1];
    assert longer[..|longer| - 1] == lines[start..next];
  }

  lemma {:induction false} FitRowsPush(lines: seq<Line>, start: nat, next: nat, width: nat)
    requires start <= next < |lines|
    ensures FitRows(lines[start..next + 1], width) == FitRows(lines[start..next], width) + [FitRow(lines[next].cells, width)]
  {
    var longer := lines[start..next + 1];
    assert longer[..|longer| - 1] == lines[start..next];
    assert longer[|longer| - 1] == lines[next];
    assert FitRows(longer, width) == FitRows(longer[..|longer| - 1], width) + [FitRow(longer[|longer| - 1].cells, width)];
  }

  /** Reads consecutive list items of one kind. */
  method ReadList(lines: seq<Line>, start: nat, ordered: bool) returns (block: Block, next: nat)
    requires start < |lines| && lines[start].item == Some(ordered)
    ensures next == EndFrom(lines, ListReader(ordered), start) && start < next
    ensures block == List(ordered, ItemTexts(lines[start..next]))
  {
    var items := [];
    next := start;
    while next < |lines| && lines[next].item == Some(ordered)
      invariant start <= next <= |lines|
      invariant EndFrom(lines, ListReader(ordered), start) == EndFrom(lines, ListReader(ordered), next)
      invariant items == ItemTexts(lines[start..next])
    {
      ItemTextsPush(lines, start, next);
      items := items + [ItemText(lines[next].text)];
      next := next + 1;
    }
    block := List(ordered, items);
  }

  /** Reads a paragraph until a blank line or another block, a table too in rich mode. */
  method ReadParagraph(lines: seq<Line>, start: nat, rich: bool) returns (block: Block, next: nat)
    requires start < |lines|
    ensures next == EndFrom(lines, ParagraphReader(rich), start + 1)
    ensures next <= |lines| && block == Paragraph(Join(Trims(lines[start..next]), " "))
  {
    next := start + 1;
    while next < |lines| && !OpensBlock(lines[next]) && !(rich && TableStartsAt(lines, next))
      invariant start + 1 <= next <= |lines|
      invariant EndFrom(lines, ParagraphReader(rich), start + 1) == EndFrom(lines, ParagraphReader(rich), next)
    {
      next := next + 1;
    }
    block := Paragraph(Join(Trims(lines[start..next]), " "));
  }

  /** Reads a pipe table from its header row. */
  method ReadTable(lines: seq<Line>, start: nat) returns (block: Block, next: nat)
    requires start < |lines| && TableStartsAt(lines, start)
    ensures next == EndFrom(lines, TableReader, start + 2) && next <= |lines|
    ensures block == Table(lines[start].cells, FitRows(lines[start + 2..next], |lines[start].cells|))
  {
    var header := lines[start].cells;
    var rows := [];
    next := start + 2;
    while next < |lines| && lines[next].piped && !OpensBlock(lines[next])
      invariant start + 2 <= next <= |lines|
      invariant EndFrom(lines, TableReader, start + 2) == EndFrom(lines, TableReader, next)
      invariant rows == FitRows(lines[start + 2..next], |header|)
    {
      FitRowsPush(lines, start + 2, next, |header|);
      rows := rows + [FitRow(lines[next].cells, |header|)];
      next := next + 1;
    }
    block := Table(header, rows);
  }

  /** Reads the block at a line that is not blank. */
  method ReadBlock(lines: seq<Line>, i: nat, rich: bool) returns (block: Block, next: nat)
    requires i < |lines| && !lines[i].blank
    ensures block == BlockAt(lines, i, rich) && next == NextAt(lines, i, rich)
  {
    var line := lines[i];
    var list := line.item;
    if line.fence {
      block, next := ReadCode(lines, i);
    } else if line.heading {
      block, next := Heading(HeadingText(line.text)), i + 1;
    } else if list.Some? {
      block, next := ReadList(lines, i, list.value);
    } else if rich && TableStartsAt(lines, i) {
      block, next := ReadTable(lines, i);
    } else {
      block, next := ReadParagraph(lines, i, rich);
    }
  }

  /** Every line break as one `\n`. */
  function UnixBreaks(source: string): string {
    if source == "" then ""
    else if source[0] == '\r' && |source| > 1 && source[1] == '\n' then "\n" + UnixBreaks(source[2..])
    else if source[0] == '\r' then "\n" + UnixBreaks(source[1..])
    else [source[0]] + UnixBreaks(source[1..])
  }

  function TestedAll(texts: seq<string>): (lines: seq<Line>)
    ensures |lines| == |texts|
  {
    if texts == [] then [] else [Tested(texts[0])] + TestedAll(texts[1..])
  }

  function LinesOf(source: string): seq<Line> {
    TestedAll(Split(UnixBreaks(source), '\n'))
  }

  /** The starts found so far and those still to find are all the starts. */
  ghost predicate Reading(lines: seq<Line>, rich: bool, found: seq<nat>, i: nat) {
    StartsFrom(lines, 0, rich) == found + StartsFrom(lines, i, rich)
  }

  lemma {:induction false} ReadingStarts(lines: seq<Line>, rich: bool)
    ensures Reading(lines, rich, [], 0)
  {
    assert [] + StartsFrom(lines, 0, rich) == StartsFrom(lines, 0, rich);
  }

  lemma {:induction false} StartsAtBlock(lines: seq<Line>, rich: bool, i: nat, next: nat)
    requires i < |lines| && !lines[i].blank && next == NextAt(lines, i, rich)
    ensures StartsFrom(lines, i, rich) == [i] + StartsFrom(lines, next, rich)
  {
  }

  lemma {:induction false} ReadingGoesOn(lines: seq<Line>, rich: bool, found: seq<nat>, i: nat, next: nat)
    requires i < |lines| && Reading(lines, rich, found, i)
    requires StartsFrom(lines, i, rich) == [i] + StartsFrom(lines, next, rich)
    ensures Reading(lines, rich, found + [i], next)
  {
    assert StartsFrom(lines, 0, rich) == found + StartsFrom(lines, i, rich);
    var rest := StartsFrom(lines, next, rich);
    assert found + ([i] + rest) == found + [i] + rest;
  }

  lemma {:induction false} ReadingSkips(lines: seq<Line>, rich: bool, found: seq<nat>, i: nat)
    requires i < |lines| && Reading(lines, rich, found, i) && lines[i].blank
    ensures Reading(lines, rich, found, i + 1)
  {
    assert StartsFrom(lines, 0, rich) == found + StartsFrom(lines, i, rich);
  }

  lemma {:induction false} ReadingEnds(lines: seq<Line>, rich: bool, found: seq<nat>, i: nat)
    requires i >= |lines| && Reading(lines, rich, found, i)
    ensures found == StartsFrom(lines, 0, rich)
  {
    assert StartsFrom(lines, 0, rich) == found + StartsFrom(lines, i, rich);
  }

  lemma {:induction false} AreBlocksPush(lines: seq<Line>, rich: bool, starts: seq<nat>, blocks: seq<Block>, i: nat)
    requires AreBlocks(lines, rich, starts, blocks) && i < |lines|
    ensures AreBlocks(lines, rich, starts + [i], blocks + [BlockAt(lines, i, rich)])
  {
    var more := blocks + [BlockAt(lines, i, rich)];
    forall p | 0 <= p < |more|
      ensures (starts + [i])[p] < |lines| && more[p] == BlockAt(lines, (starts + [i])[p], rich)
    {
      assert p < |blocks| ==> blocks[p] == BlockAt(lines, starts[p], rich);
    }
  }

  /** Reads the block at a line that is not blank, one more block of the text. */
  method ReadNext(lines: seq<Line>, i: nat, rich: bool, ghost found: seq<nat>, ghost blocks: seq<Block>) returns (block: Block, next: nat)
    requires i < |lines| && !lines[i].blank
    requires Reading(lines, rich, found, i) && AreBlocks(lines, rich, found, blocks)
    ensures i < next && Reading(lines, rich, found + [i], next) && AreBlocks(lines, rich, found + [i], blocks + [block])
  {
    block, next := ReadBlock(lines, i, rich);
    AreBlocksPush(lines, rich, found, blocks, i);
    StartsAtBlock(lines, rich, i, next);
    ReadingGoesOn(lines, rich, found, i, next);
  }

  /** Splits a markdown text into its blocks. */
  method Read(source: string, rich: bool) returns (blocks: seq<Block>)
    ensures var lines := LinesOf(source); AreBlocks(lines, rich, StartsFrom(lines, 0, rich), blocks)
  {
    var lines := LinesOf(source);
    blocks := [];
    var index := 0;
    ghost var found: seq<nat> := [];
    ReadingStarts(lines, rich);
    while index < |lines|
      invariant Reading(lines, rich, found, index) && AreBlocks(lines, rich, found, blocks)
      decreases |lines| - index
    {
      if lines[index].blank {
        ReadingSkips(lines, rich, found, index);
        index := index + 1;
      } else {
        var block, next := ReadNext(lines, index, rich, found, blocks);
        found, blocks, index := found + [index], blocks + [block], next;
      }
    }
    ReadingEnds(lines, rich, found, index);
  }
}
