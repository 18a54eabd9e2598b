// Writing blocks as markdown and reading them again gives the same blocks.
module MarkdownPrint {
  import opened Wrappers
  import opened Strings
  import opened MarkdownTables
  import opened MarkdownBlocks
  import opened MarkdownLaws

  // ---- printing ----

  function Dashes(n: nat): (cells: seq<string>)
    ensures |cells| == n
  {
    if n == 0 then [] else Dashes(n - 1) + ["---"]
  }

  function ItemLine(ordered: bool, item: string): string {
    (if ordered then "1. " else "- ") + item
  }

  function ItemLines(ordered: bool, items: seq<string>): (texts: seq<string>)
    ensures |texts| == |items|
  {
    if items == [] then [] else ItemLines(ordered, items[..|items| - 1]) + [ItemLine(ordered, items[|items| - 1])]
  }

  function RowLine(cells: seq<string>): string {
    if cells == [] then "" else PrintRow(cells)
  }

  function RowLines(rows: seq<seq<string>>): (texts: seq<string>)
    ensures |texts| == |rows|
  {
    if rows == [] then [] else RowLines(rows[..|rows| - 1]) + [RowLine(rows[|rows| - 1])]
  }

  /** The lines a block is written on. */
  function BlockLines(block: Block): seq<string> {
    match block
    case Heading(text) => ["# " + text]
    case Paragraph(text) => [text]
    case List(ordered, items) => ItemLines(ordered, items)
    case Code(text) => [FENCE] + Split(text, '\n') + [FENCE]
    case Table(header, rows) => [RowLine(header), RowLine(Dashes(|header|))] + RowLines(rows)
  }

  /** The blocks one after another, a blank line between each two. */
  function AllLines(blocks: seq<Block>): seq<string> {
    if blocks == [] then []
    else if |blocks| == 1 then BlockLines(blocks[0])
    else BlockLines(blocks[0]) + [""] + AllLines(blocks[1..])
  }

  function Printed(blocks: seq<Block>): string {
    Join(AllLines(blocks), "\n")
  }

  // ---- what can be printed ----

  predicate OneLine(s: string) {
    '\n' !in s && '\r' !in s
  }

  predicate IsItem(item: string) {
    OneLine(item) && (item == "" || !IsSpace(item[0]))
  }

  predicate AreCells(cells: seq<string>) {
    cells != [] && forall p :: 0 <= p < |cells| ==> OneLine(cells[p]) && IsTrimmed(cells[p]) && !EndsWith(cells[p], BACKSLASH)
  }

  /** A block that markdown can say: its texts trimmed and on one line, no paragraph that opens another block, no code that
      closes its own fence, no cell that ends with a backslash, every row as wide as the header. */
  predicate Printable(block: Block, rich: bool) {
    match block
    case Heading(text) => OneLine(text) && IsTrimmed(text)
    case Paragraph(text) => OneLine(text) && IsTrimmed(text) && !OpensBlock(Tested(text))
    case List(_, items) => items != [] && forall p :: 0 <= p < |items| ==> IsItem(items[p])
    case Code(text) => '\r' !in text && forall p :: 0 <= p < |Split(text, '\n')| ==> !IsFence(Split(text, '\n')[p])
    case Table(header, rows) => rich && AreCells(header) && forall p :: 0 <= p < |rows| ==> AreCells(rows[p]) && |rows[p]| == |header|
  }

  /** The lines are those of one block, read whole. */
  ghost predicate ReadsAs(lines: seq<Line>, rich: bool, block: Block) {
    && lines != [] && !lines[0].blank && NextAt(lines, 0, rich) == |lines| && BlockAt(lines, 0, rich) == block
  }

  // ---- one block ----

  lemma {:induction false} HeadingTests(text: string)
    requires IsTrimmed(text)
    ensures var line := Tested("# " + text); !line.blank && !line.fence && line.heading && HeadingText("# " + text) == text
  {
    var line := "# " + text;
    assert line[0] == '#' && line[1] == ' ';
    assert HashRun(line[1..]) == 0;
    TrimStartStays(line);
    TrimEndKeeps(line);
    assert line[1..] == " " + text;
    TrimLeadingSpace(text);
  }

  lemma {:induction false} TrimStartStays(s: string)
    requires s != "" && !IsSpace(s[0])
    ensures TrimStart(s) == s
  {
  }

  lemma {:induction false} TrimEndKeeps(s: string)
    requires s != "" && !IsSpace(s[0])
    ensures TrimEnd(s) != ""
  {
    if IsSpace(s[|s| - 1]) {
      TrimEndKeeps(s[..|s| - 1]);
    }
  }

  lemma {:induction false} TrimLeadingSpace(text: string)
    requires IsTrimmed(text)
    ensures Trim(" " + text) == text && TrimStart(" " + text) == TrimStart(text)
  {
    assert (" " + text)[1..] == text;
    TrimKeepsTrimmed(text);
  }

  lemma {:induction false} HeadingIsRead(text: string, rich: bool)
    requires Printable(Heading(text), rich)
    ensures ReadsAs(TestedAll(BlockLines(Heading(text))), rich, Heading(text))
  {
    HeadingTests(text);
    var lines := TestedAll(["# " + text]);
    assert lines == [Tested("# " + text)];
  }

  lemma {:induction false} ParagraphIsRead(text: string, rich: bool)
    requires Printable(Paragraph(text), rich)
    ensures ReadsAs(TestedAll(BlockLines(Paragraph(text))), rich, Paragraph(text))
  {
    var lines := TestedAll([text]);
    assert lines == [Tested(text)];
    TrimKeepsTrimmed(text);
    assert lines[0..1] == lines && lines[..0] == [];
    assert Trims(lines) == [] + [text];
  }

  lemma {:induction false} ItemTests(ordered: bool, item: string)
    requires IsItem(item)
    ensures var line := Tested(ItemLine(ordered, item));
            !line.blank && !line.fence && !line.heading && line.item == Some(ordered) && ItemText(line.text) == item
  {
    var line := ItemLine(ordered, item);
    TrimStartStays(line);
    TrimEndKeeps(line);
    MarkerIsFound(ordered, item);
    var width := if ordered then 2 else 1;
    assert line[width..] == " " + item;
    SpaceIsTrimmed(item);
  }

  lemma {:induction false} SpaceIsTrimmed(item: string)
    requires IsItem(item)
    ensures TrimStart(" " + item) == item
  {
    assert (" " + item)[1..] == item;
    if item != "" {
      TrimStartStays(item);
    }
  }

  lemma {:induction false} MarkerIsFound(ordered: bool, item: string)
    ensures MarkerOf(ItemLine(ordered, item)) == Marker(ordered, if ordered then 2 else 1)
  {
    var line := ItemLine(ordered, item);
    if ordered {
      assert line[0] == '1' && line[1] == '.' && line[2] == ' ';
      assert DigitRun(line[1..]) == 0;
      assert DigitRun(line) == 1;
    } else {
      assert line[0] == '-' && line[1] == ' ';
    }
  }

  /** The lines of texts, by any test. */
  function LinesBy(test: string -> Line, texts: seq<string>): seq<Line> {
    if texts == [] then [] else [test(texts[0])] + LinesBy(test, texts[1..])
  }

  lemma {:induction false} LinesByTogether(test: string -> Line, a: seq<string>, b: seq<string>)
    ensures LinesBy(test, a + b) == LinesBy(test, a) + LinesBy(test, b)
    decreases |a|
  {
    if a == [] {
      assert a + b == b;
    } else {
      LinesByTogether(test, a[1..], b);
      assert (a + b)[1..] == a[1..] + b;
    }
  }

  lemma {:induction false} TestedIsByTest(texts: seq<string>)
    ensures TestedAll(texts) == LinesBy(Tested, texts)
  {
    if texts != [] {
      TestedIsByTest(texts[1..]);
    }
  }

  lemma {:induction false} TestedTogether(a: seq<string>, b: seq<string>)
    ensures TestedAll(a + b) == TestedAll(a) + TestedAll(b)
  {
    TestedIsByTest(a);
    TestedIsByTest(b);
    TestedIsByTest(a + b);
    LinesByTogether(Tested, a, b);
  }

  lemma {:induction false} TestedOne(text: string)
    ensures TestedAll([text]) == [Tested(text)]
  {
  }

  lemma {:induction false} ItemLinesAt(ordered: bool, items: seq<string>, p: nat)
    requires p < |items|
    ensures ItemLines(ordered, items)[p] == ItemLine(ordered, items[p])
  {
    if p < |items| - 1 {
      ItemLinesAt(ordered, items[..|items| - 1], p);
    }
  }

  lemma {:induction false} ItemTextsAt(lines: seq<Line>, p: nat)
    requires p < |lines|
    ensures ItemTexts(lines)[p] == ItemText(lines[p].text)
  {
    if p < |lines| - 1 {
      ItemTextsAt(lines[..|lines| - 1], p);
    }
  }

  lemma {:induction false} ItemTextsAre(lines: seq<Line>, items: seq<string>)
    requires |lines| == |items| && forall p :: 0 <= p < |items| ==> ItemText(lines[p].text) == items[p]
    ensures ItemTexts(lines) == items
  {
    var texts := ItemTexts(lines);
    forall p | 0 <= p < |items|
      ensures texts[p] == items[p]
    {
      ItemTextsAt(lines, p);
    }
  }

  lemma {:induction false} ListIsRead(ordered: bool, items: seq<string>, rich: bool)
    requires Printable(List(ordered, items), rich)
    ensures ReadsAs(TestedAll(BlockLines(List(ordered, items))), rich, List(ordered, items))
  {
    var texts := ItemLines(ordered, items);
    var lines := TestedAll(texts);
    forall p | 0 <= p < |items|
      ensures lines[p].item == Some(ordered) && ItemText(lines[p].text) == items[p]
      ensures !lines[p].blank && !lines[p].fence && !lines[p].heading
    {
      TestedKeepsText(texts, p);
      ItemLinesAt(ordered, items, p);
      ItemTests(ordered, items[p]);
    }
    EndPasses(lines, ListReader(ordered), 0, |lines|);
    ItemTextsAre(lines, items);
    assert lines[0..|lines|] == lines;
  }

  lemma {:induction false} FenceTests()
    ensures var line := Tested(FENCE); !line.blank && line.fence
  {
    TrimStartStays(FENCE);
    TrimEndKeeps(FENCE);
  }

  lemma {:induction false} TextsAre(lines: seq<Line>, texts: seq<string>)
    requires |lines| == |texts| && forall p :: 0 <= p < |texts| ==> lines[p].text == texts[p]
    ensures Texts(lines) == texts
  {
    if lines != [] {
      TextsAre(lines[..|lines| - 1], texts[..|texts| - 1]);
      assert texts == texts[..|texts| - 1] + [texts[|texts| - 1]];
    }
  }

  /** Lines between two fences, none of them a fence, are read as one block of code. */
  lemma {:induction false} FencedIsRead(fence: Line, inside: seq<Line>, rich: bool)
    requires fence.fence && !fence.blank && forall p :: 0 <= p < |inside| ==> !inside[p].fence
    ensures ReadsAs([fence] + inside + [fence], rich, Code(Join(Texts(inside), "\n")))
  {
    var lines, n := [fence] + inside + [fence], |inside| + 1;
    forall p | 1 <= p < n
      ensures !Stops(lines, CodeReader, p)
    {
      assert lines[p] == inside[p - 1];
    }
    EndPasses(lines, CodeReader, 1, n);
    assert lines[n] == fence && Stops(lines, CodeReader, n);
    assert lines[1..n] == inside;
  }

  lemma {:induction false} CodeIsRead(text: string, rich: bool)
    requires Printable(Code(text), rich)
    ensures ReadsAs(TestedAll(BlockLines(Code(text))), rich, Code(text))
  {
    var inside := Split(text, '\n');
    var lines := TestedAll(inside);
    CodeLinesAre(text);
    FenceTests();
    forall p | 0 <= p < |inside|
      ensures !lines[p].fence && lines[p].text == inside[p]
    {
      TestedKeepsText(inside, p);
    }
    FencedIsRead(Tested(FENCE), lines, rich);
    TextsAre(lines, inside);
    JoinUndoesSplit(text, '\n');
  }

  lemma {:induction false} CodeLinesAre(text: string)
    ensures TestedAll(BlockLines(Code(text))) == [Tested(FENCE)] + TestedAll(Split(text, '\n')) + [Tested(FENCE)]
  {
    TestedOne(FENCE);
    TestedTogether([FENCE] + Split(text, '\n'), [FENCE]);
    TestedTogether([FENCE], Split(text, '\n'));
  }

  lemma {:induction false} RowTests(cells: seq<string>)
    requires cells != []
    ensures var line := Tested(PrintRow(cells)); line.piped && !OpensBlock(line)
  {
    var line := PrintRow(cells);
    TrimStartStays(line);
    TrimEndKeeps(line);
    assert line[0] == PIPE;
  }

  lemma {:induction false} DashesAre(n: nat, p: nat)
    requires p < n
    ensures Dashes(n)[p] == "---"
  {
    if p < n - 1 {
      DashesAre(n - 1, p);
    }
  }

  lemma {:induction false} DashCell()
    ensures IsSeparatorCell("---") && IsTrimmed("---") && !EndsWith("---", BACKSLASH) && OneLine("---")
  {
    assert DashRun("---"[1..][1..][1..]) == 0;
    assert DashRun("---"[1..][1..]) == 1;
    assert DashRun("---"[1..]) == 2;
    assert DashRun("---") == 3;
  }

  lemma {:induction false} SeparatorTests(n: nat)
    requires n > 0
    ensures AreCells(Dashes(n))
    ensures var line := Tested(PrintRow(Dashes(n))); line.separator && |line.cells| == n
  {
    DashCell();
    forall p | 0 <= p < n
      ensures Dashes(n)[p] == "---"
    {
      DashesAre(n, p);
    }
    SplitGivesCellsBack(Dashes(n));
  }

  lemma {:induction false} RowLinesAt(rows: seq<seq<string>>, p: nat)
    requires p < |rows|
    ensures RowLines(rows)[p] == RowLine(rows[p])
  {
    if p < |rows| - 1 {
      RowLinesAt(rows[..|rows| - 1], p);
    }
  }

  lemma {:induction false} FittedAsIs(cells: seq<string>)
    ensures FitRow(cells, |cells|) == cells
  {
  }

  lemma {:induction false} FitRowsAsIs(lines: seq<Line>, rows: seq<seq<string>>, width: nat)
    requires |lines| == |rows| && forall p :: 0 <= p < |rows| ==> lines[p].cells == rows[p] && |rows[p]| == width
    ensures FitRows(lines, width) == rows
  {
    if lines != [] {
      FitRowsAsIs(lines[..|lines| - 1], rows[..|rows| - 1], width);
      FittedAsIs(rows[|rows| - 1]);
      assert rows == rows[..|rows| - 1] + [rows[|rows| - 1]];
    }
  }

  lemma {:induction false} RowsAreRead(lines: seq<Line>, rows: seq<seq<string>>, width: nat)
    requires lines == TestedAll(RowLines(rows))
    requires forall p :: 0 <= p < |rows| ==> AreCells(rows[p]) && |rows[p]| == width
    ensures |lines| == |rows| && FitRows(lines, width) == rows
    ensures forall p :: 0 <= p < |lines| ==> lines[p].piped && !OpensBlock(lines[p])
  {
    forall p | 0 <= p < |rows|
      ensures lines[p].cells == rows[p] && lines[p].piped && !OpensBlock(lines[p])
    {
      TestedKeepsText(RowLines(rows), p);
      RowLinesAt(rows, p);
      RowTests(rows[p]);
      SplitGivesCellsBack(rows[p]);
    }
    FitRowsAsIs(lines, rows, width);
  }

  /** A row with a pipe, a separator as wide and body rows are read as one table. */
  lemma {:induction false} RowsMakeTable(header: Line, separator: Line, body: seq<Line>)
    requires header.piped && !OpensBlock(header) && separator.separator && |header.cells| == |separator.cells|
    requires forall p :: 0 <= p < |body| ==> body[p].piped && !OpensBlock(body[p])
    ensures ReadsAs([header, separator] + body, true, Table(header.cells, FitRows(body, |header.cells|)))
  {
    var lines := [header, separator] + body;
    forall p | 2 <= p < |lines|
      ensures !Stops(lines, TableReader, p)
    {
      assert lines[p] == body[p - 2];
    }
    EndPasses(lines, TableReader, 2, |lines|);
    assert lines[0] == header && lines[1] == separator && TableStartsAt(lines, 0);
    assert lines[2..|lines|] == body;
  }

  lemma {:induction false} TableIsRead(header: seq<string>, rows: seq<seq<string>>, rich: bool)
    requires Printable(Table(header, rows), rich)
    ensures ReadsAs(TestedAll(BlockLines(Table(header, rows))), rich, Table(header, rows))
  {
    var n := |header|;
    var body := TestedAll(RowLines(rows));
    TableLinesAre(header, rows);
    RowTests(header);
    SeparatorTests(n);
    SplitGivesCellsBack(header);
    RowsAreRead(body, rows, n);
    RowsMakeTable(Tested(PrintRow(header)), Tested(PrintRow(Dashes(n))), body);
  }

  lemma {:induction false} TableLinesAre(header: seq<string>, rows: seq<seq<string>>)
    requires header != []
    ensures TestedAll(BlockLines(Table(header, rows)))
         == [Tested(PrintRow(header)), Tested(PrintRow(Dashes(|header|)))] + TestedAll(RowLines(rows))
  {
    TwoLinesFirst(PrintRow(header), PrintRow(Dashes(|header|)), RowLines(rows));
  }

  lemma {:induction false} TwoLinesFirst(first: string, second: string, rest: seq<string>)
    ensures TestedAll([first, second] + rest) == [Tested(first), Tested(second)] + TestedAll(rest)
  {
    TestedTogether([first, second], rest);
    TestedTogether([first], [second]);
    TestedOne(first);
    TestedOne(second);
    assert [first] + [second] == [first, second];
  }

  /** The lines a printable block is written on are read as that block, whole. */
  lemma {:induction false} BlockIsRead(block: Block, rich: bool)
    requires Printable(block, rich)
    ensures ReadsAs(TestedAll(BlockLines(block)), rich, block)
  {
    match block
    case Heading(text) => HeadingIsRead(text, rich);
    case Paragraph(text) => ParagraphIsRead(text, rich);
    case List(ordered, items) => ListIsRead(ordered, items, rich);
    case Code(text) => CodeIsRead(text, rich);
    case Table(header, rows) => TableIsRead(header, rows, rich);
  }

  // ---- the text of a document ----

  predicate AllOneLine(texts: seq<string>) {
    texts == [] || (OneLine(texts[0]) && AllOneLine(texts[1..]))
  }

  lemma {:induction false} OneLineTogether(a: seq<string>, b: seq<string>)
    requires AllOneLine(a) && AllOneLine(b)
    ensures AllOneLine(a + b)
    decreases |a|
  {
    if a == [] {
      assert a + b == b;
    } else {
      OneLineTogether(a[1..], b);
      assert (a + b)[1..] == a[1..] + b;
    }
  }

  lemma {:induction false} OneMoreLine(texts: seq<string>, last: string)
    requires AllOneLine(texts) && OneLine(last)
    ensures AllOneLine(texts + [last])
  {
    OneLineTogether(texts, [last]);
  }

  lemma {:induction false} ItemsAreOneLine(ordered: bool, items: seq<string>)
    requires forall p :: 0 <= p < |items| ==> IsItem(items[p])
    ensures AllOneLine(ItemLines(ordered, items))
  {
    if items != [] {
      ItemsAreOneLine(ordered, items[..|items| - 1]);
      OneMoreLine(ItemLines(ordered, items[..|items| - 1]), ItemLine(ordered, items[|items| - 1]));
    }
  }

  lemma {:induction false} EscapeStaysOneLine(cell: string)
    requires OneLine(cell)
    ensures OneLine(Escape(cell))
  {
    if cell != "" {
      EscapeStaysOneLine(cell[1..]);
    }
  }

  lemma {:induction false} BodyIsOneLine(cells: seq<string>)
    requires cells != [] && forall p :: 0 <= p < |cells| ==> OneLine(cells[p])
    ensures OneLine(Body(cells))
  {
    EscapeStaysOneLine(cells[|cells| - 1]);
    if |cells| > 1 {
      BodyIsOneLine(cells[..|cells| - 1]);
    }
  }

  lemma {:induction false} RowsAreOneLine(rows: seq<seq<string>>)
    requires forall p :: 0 <= p < |rows| ==> AreCells(rows[p])
    ensures AllOneLine(RowLines(rows))
  {
    if rows != [] {
      RowsAreOneLine(rows[..|rows| - 1]);
      BodyIsOneLine(rows[|rows| - 1]);
      OneMoreLine(RowLines(rows[..|rows| - 1]), RowLine(rows[|rows| - 1]));
    }
  }

  lemma {:induction false} PiecesAreOneLine(text: string)
    requires '\r' !in text
    ensures AllOneLine(Split(text, '\n'))
  {
    if text != "" {
      PiecesAreOneLine(text[1..]);
      var rest := Split(text[1..], '\n');
      if text[0] == '\n' {
        assert ([""] + rest)[1..] == rest;
      } else {
        assert ([[text[0]] + rest[0]] + rest[1..])[1..] == rest[1..];
      }
    }
  }

  lemma {:induction false} BlockLinesAreOneLine(block: Block, rich: bool)
    requires Printable(block, rich)
    ensures AllOneLine(BlockLines(block))
  {
    match block
    case Heading(text) =>
    case Paragraph(text) =>
    case List(ordered, items) => ItemsAreOneLine(ordered, items);
    case Code(text) =>
      PiecesAreOneLine(text);
      OneLineTogether([FENCE], Split(text, '\n'));
      OneMoreLine([FENCE] + Split(text, '\n'), FENCE);
    case Table(header, rows) =>
      SeparatorTests(|header|);
      BodyIsOneLine(header);
      BodyIsOneLine(Dashes(|header|));
      RowsAreOneLine(rows);
      TwoLines(RowLine(header), RowLine(Dashes(|header|)));
      OneLineTogether([RowLine(header), RowLine(Dashes(|header|))], RowLines(rows));
  }

  lemma {:induction false} TwoLines(a: string, b: string)
    requires OneLine(a) && OneLine(b)
    ensures AllOneLine([a, b])
  {
    assert [a, b][1..] == [b] && [b][1..] == [];
  }

  lemma {:induction false} AllLinesAreOneLine(blocks: seq<Block>, rich: bool)
    requires forall p :: 0 <= p < |blocks| ==> Printable(blocks[p], rich)
    ensures AllOneLine(AllLines(blocks))
  {
    if blocks != [] {
      BlockLinesAreOneLine(blocks[0], rich);
      AllLinesAreOneLine(blocks[1..], rich);
      if |blocks| > 1 {
        OneMoreLine(BlockLines(blocks[0]), "");
        OneLineTogether(BlockLines(blocks[0]) + [""], AllLines(blocks[1..]));
      }
    }
  }

  lemma {:induction false} SplitOne(line: string)
    requires OneLine(line)
    ensures Split(line, '\n') == [line]
  {
    if line != "" {
      SplitOne(line[1..]);
      assert line[0] in line && line == [line[0]] + line[1..];
    }
  }

  lemma {:induction false} SplitFirst(line: string, rest: string)
    requires OneLine(line)
    ensures Split(line + "\n" + rest, '\n') == [line] + Split(rest, '\n')
  {
    var text := line + "\n" + rest;
    if line == "" {
      assert text[1..] == rest;
    } else {
      SplitFirst(line[1..], rest);
      assert text[1..] == line[1..] + "\n" + rest;
      assert text[0] == line[0] && line[0] in line && line == [line[0]] + line[1..];
    }
  }

  lemma {:induction false} SplitUndoesJoin(texts: seq<string>)
    requires texts != [] && AllOneLine(texts)
    ensures Split(Join(texts, "\n"), '\n') == texts
  {
    if |texts| == 1 {
      SplitOne(texts[0]);
    } else {
      SplitUndoesJoin(texts[1..]);
      SplitFirst(texts[0], Join(texts[1..], "\n"));
    }
  }

  lemma {:induction false} JoinHasNoReturn(texts: seq<string>)
    requires AllOneLine(texts)
    ensures '\r' !in Join(texts, "\n")
  {
    if |texts| > 1 {
      JoinHasNoReturn(texts[1..]);
    }
  }

  lemma {:induction false} NoReturnStays(source: string)
    requires '\r' !in source
    ensures UnixBreaks(source) == source
  {
    if source != "" {
      assert source[0] in source;
      NoReturnStays(source[1..]);
    }
  }

  // ---- a whole document ----

  lemma {:induction false} OneBlock(lines: seq<Line>, rich: bool, block: Block)
    requires ReadsAs(lines, rich, block)
    ensures AreBlocks(lines, rich, StartsFrom(lines, 0, rich), [block]) && !EndsInCode(lines, 0, rich)
  {
    StartsAtBlock(lines, rich, 0, |lines|);
    assert StartsFrom(lines, |lines|, rich) == [];
    assert StartsFrom(lines, 0, rich) == [0];
  }

  lemma {:induction false} BlocksAreRead(blocks: seq<Block>, rich: bool)
    requires blocks != [] && forall p :: 0 <= p < |blocks| ==> Printable(blocks[p], rich)
    ensures var lines := TestedAll(AllLines(blocks)); AreBlocks(lines, rich, StartsFrom(lines, 0, rich), blocks)
  {
    var first := TestedAll(BlockLines(blocks[0]));
    BlockIsRead(blocks[0], rich);
    OneBlock(first, rich, blocks[0]);
    if |blocks| > 1 {
      BlocksAreRead(blocks[1..], rich);
      LinesAround(BlockLines(blocks[0]), AllLines(blocks[1..]));
      BlockGoesFirst(first, TestedAll(AllLines(blocks[1..])), rich, blocks);
    } else {
      assert blocks == [blocks[0]];
    }
  }

  lemma {:induction false} BlockGoesFirst(first: seq<Line>, rest: seq<Line>, rich: bool, blocks: seq<Block>)
    requires blocks != [] && AreBlocks(first, rich, StartsFrom(first, 0, rich), [blocks[0]]) && !EndsInCode(first, 0, rich)
    requires AreBlocks(rest, rich, StartsFrom(rest, 0, rich), blocks[1..])
    ensures AreBlocks(first + BLANK + rest, rich, StartsFrom(first + BLANK + rest, 0, rich), blocks)
  {
    BlankLineCuts(first, rest, rich, [blocks[0]], blocks[1..]);
    assert [blocks[0]] + blocks[1..] == blocks;
  }

  lemma {:induction false} LinesAround(a: seq<string>, b: seq<string>)
    ensures TestedAll(a + [""] + b) == TestedAll(a) + BLANK + TestedAll(b)
  {
    TestedTogether(a + [""], b);
    TestedTogether(a, [""]);
    TestedOne("");
  }

  lemma {:induction false} BlockHasLines(block: Block, rich: bool)
    requires Printable(block, rich)
    ensures BlockLines(block) != []
  {
  }

  /** Printing blocks and reading the text back gives the same blocks. */
  lemma {:induction false} PrintedBlocksAreReadBack(blocks: seq<Block>, rich: bool)
    requires forall p :: 0 <= p < |blocks| ==> Printable(blocks[p], rich)
    ensures var lines := LinesOf(Printed(blocks)); AreBlocks(lines, rich, StartsFrom(lines, 0, rich), blocks)
  {
    var texts := AllLines(blocks);
    AllLinesAreOneLine(blocks, rich);
    JoinHasNoReturn(texts);
    NoReturnStays(Printed(blocks));
    if blocks == [] {
      TestedOne("");
      EmptyTextHasNoBlocks(rich);
    } else {
      BlockHasLines(blocks[0], rich);
      SplitUndoesJoin(texts);
      BlocksAreRead(blocks, rich);
    }
  }

  lemma {:induction false} EmptyTextHasNoBlocks(rich: bool)
    ensures StartsFrom([Tested("")], 0, rich) == []
  {
    var lines := [Tested("")];
    assert lines[0].blank;
    assert StartsFrom(lines, 1, rich) == [];
  }
}
