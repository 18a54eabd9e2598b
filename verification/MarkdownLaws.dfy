// What reading markdown promises: every line is read once, runs are kept whole, rich mode only adds tables,
// tables are rectangular, and a blank line outside code cuts a text in two.
module MarkdownLaws {
  import opened Wrappers
  import opened Strings
  import opened MarkdownTables
  import opened MarkdownBlocks

  // ---- no line is lost ----

  ghost predicate AllBlank(lines: seq<Line>, from: nat, to: nat) {
    forall l :: from <= l < to && l < |lines| ==> lines[l].blank
  }

  /** The blocks' spans follow one another from line `i` to the end, with only blank lines between them. */
  ghost predicate Tiles(lines: seq<Line>, rich: bool, starts: seq<nat>, i: nat) {
    if starts == [] then AllBlank(lines, i, |lines|)
    else
      && i <= starts[0] < |lines|
      && AllBlank(lines, i, starts[0])
      && Tiles(lines, rich, starts[1..], SpanEnd(lines, starts[0], rich))
  }

  lemma {:induction false} TilesFromBlank(lines: seq<Line>, rich: bool, starts: seq<nat>, i: nat)
    requires i < |lines| && lines[i].blank && Tiles(lines, rich, starts, i + 1)
    ensures Tiles(lines, rich, starts, i)
  {
  }

  lemma {:induction false} TilesPush(lines: seq<Line>, rich: bool, i: nat, rest: seq<nat>)
    requires i < |lines| && Tiles(lines, rich, rest, SpanEnd(lines, i, rich))
    ensures Tiles(lines, rich, [i] + rest, i)
  {
    assert ([i] + rest)[1..] == rest;
  }

  lemma {:induction false} BlocksTile(lines: seq<Line>, rich: bool, i: nat)
    requires i <= |lines|
    ensures Tiles(lines, rich, StartsFrom(lines, i, rich), i)
    decreases |lines| - i
  {
    if i < |lines| {
      if lines[i].blank {
        BlocksTile(lines, rich, i + 1);
        TilesFromBlank(lines, rich, StartsFrom(lines, i + 1, rich), i);
      } else {
        var end := SpanEnd(lines, i, rich);
        BlocksTile(lines, rich, end);
        TilesPush(lines, rich, i, StartsFrom(lines, end, rich));
      }
    }
  }

  /** Line `l` is in the span of the block that starts at `i`. */
  predicate Spans(lines: seq<Line>, rich: bool, i: nat, l: nat) {
    i < |lines| && i <= l < SpanEnd(lines, i, rich)
  }

  /** Line `l` is in the span of one of the blocks. */
  ghost predicate IsRead(lines: seq<Line>, rich: bool, starts: seq<nat>, l: nat) {
    exists p :: 0 <= p < |starts| && Spans(lines, rich, starts[p], l)
  }

  lemma {:induction false} TiledLine(lines: seq<Line>, rich: bool, starts: seq<nat>, i: nat, l: nat)
    requires Tiles(lines, rich, starts, i) && i <= l < |lines|
    ensures lines[l].blank || IsRead(lines, rich, starts, l)
    decreases |starts|
  {
    if starts != [] && l >= starts[0] {
      var end := SpanEnd(lines, starts[0], rich);
      if l < end {
        assert Spans(lines, rich, starts[0], l);
      } else {
        TiledLine(lines, rich, starts[1..], end, l);
        if !lines[l].blank {
          var p :| 0 <= p < |starts[1..]| && Spans(lines, rich, starts[1..][p], l);
          assert Spans(lines, rich, starts[p + 1], l);
        }
      }
    }
  }

  lemma {:induction false} TiledAfter(lines: seq<Line>, rich: bool, starts: seq<nat>, i: nat, q: nat)
    requires Tiles(lines, rich, starts, i) && q < |starts|
    ensures i <= starts[q] < |lines| && starts[q] < SpanEnd(lines, starts[q], rich) <= |lines|
    decreases |starts|
  {
    if q > 0 {
      TiledAfter(lines, rich, starts[1..], SpanEnd(lines, starts[0], rich), q - 1);
    }
  }

  lemma {:induction false} TiledInOrder(lines: seq<Line>, rich: bool, starts: seq<nat>, i: nat, p: nat, q: nat)
    requires Tiles(lines, rich, starts, i) && p < q < |starts|
    ensures starts[p] < |lines| && SpanEnd(lines, starts[p], rich) <= starts[q]
    decreases |starts|
  {
    var end := SpanEnd(lines, starts[0], rich);
    if p == 0 {
      TiledAfter(lines, rich, starts[1..], end, q - 1);
    } else {
      TiledInOrder(lines, rich, starts[1..], end, p - 1, q - 1);
    }
  }

  /** Every line is blank or in a block's span: reading drops no line that says something. */
  lemma {:induction false} EveryLineIsRead(lines: seq<Line>, rich: bool, l: nat)
    requires l < |lines|
    ensures lines[l].blank || IsRead(lines, rich, StartsFrom(lines, 0, rich), l)
  {
    BlocksTile(lines, rich, 0);
    TiledLine(lines, rich, StartsFrom(lines, 0, rich), 0, l);
  }

  /** No line is read twice: each span ends before the next block starts, and none is empty or runs past the text. */
  lemma {:induction false} NoLineIsReadTwice(lines: seq<Line>, rich: bool, p: nat, q: nat)
    requires p < q < |StartsFrom(lines, 0, rich)|
    ensures var starts := StartsFrom(lines, 0, rich);
            && starts[p] < |lines| && starts[q] < |lines|
            && starts[p] < SpanEnd(lines, starts[p], rich) <= starts[q] < SpanEnd(lines, starts[q], rich) <= |lines|
  {
    BlocksTile(lines, rich, 0);
    TiledInOrder(lines, rich, StartsFrom(lines, 0, rich), 0, p, q);
    TiledAfter(lines, rich, StartsFrom(lines, 0, rich), 0, p);
    TiledAfter(lines, rich, StartsFrom(lines, 0, rich), 0, q);
  }

  lemma {:induction false} TestedKeepsText(texts: seq<string>, l: nat)
    requires l < |texts|
    ensures TestedAll(texts)[l] == Tested(texts[l])
  {
    if l > 0 {
      TestedKeepsText(texts[1..], l - 1);
      assert texts[1..][l - 1] == texts[l];
    }
  }

  /** The lines put together again, a break between each two, are the source with its line breaks made one kind. */
  lemma {:induction false} LinesMakeSource(source: string, l: nat)
    requires l < |LinesOf(source)|
    ensures var texts := Split(UnixBreaks(source), '\n');
            |texts| == |LinesOf(source)| && LinesOf(source)[l].text == texts[l] && Join(texts, "\n") == UnixBreaks(source)
  {
    TestedKeepsText(Split(UnixBreaks(source), '\n'), l);
    JoinUndoesSplit(UnixBreaks(source), '\n');
  }

  // ---- runs are whole ----

  /** Two readers that would have gone on as one had their lines touched. */
  predicate SameReader(a: Option<Reader>, b: Option<Reader>) {
    && a.Some? && b.Some?
    && ((a.value.ParagraphReader? && b.value.ParagraphReader?) || (a.value.ListReader? && a.value == b.value))
  }

  /** Two paragraphs, or two lists of one kind. */
  predicate SameRun(a: Block, b: Block) {
    (a.Paragraph? && b.Paragraph?) || (a.List? && b.List? && a.ordered == b.ordered)
  }

  lemma {:induction false} KindOfBlock(lines: seq<Line>, reader: Option<Reader>, i: nat)
    requires i < |lines| && (reader == Some(TableReader) ==> i + 1 < |lines|)
    ensures var block := BlockOf(lines, reader, i);
            && (block.Paragraph? <==> reader.Some? && reader.value.ParagraphReader?)
            && (block.List? <==> reader.Some? && reader.value.ListReader?)
            && (block.List? ==> reader == Some(ListReader(block.ordered)))
            && (block.Table? <==> reader == Some(TableReader))
  {
  }

  lemma {:induction false} EndStops(lines: seq<Line>, reader: Reader, i: nat)
    ensures EndFrom(lines, reader, i) < |lines| ==> Stops(lines, reader, EndFrom(lines, reader, i))
    decreases |lines| - i
  {
    if i < |lines| && !Stops(lines, reader, i) {
      EndStops(lines, reader, i + 1);
    }
  }

  /** A line where a paragraph or a list stops does not call for the same reader again, unless it is blank. */
  lemma {:induction false} StopIsAnotherRun(lines: seq<Line>, reader: Reader, i: nat, rich: bool)
    requires i < |lines| && !lines[i].blank && Stops(lines, reader, i)
    requires reader.ListReader? || reader == ParagraphReader(rich)
    ensures !SameReader(Some(reader), ReaderAt(lines, i, rich))
  {
  }

  lemma {:induction false} ReaderKinds(lines: seq<Line>, i: nat, rich: bool)
    requires i < |lines|
    ensures var reader := ReaderAt(lines, i, rich);
            reader.Some? && reader.value.ParagraphReader? ==> reader.value == ParagraphReader(rich)
  {
  }

  /** The block right at the end of another one's span never carries on its run. */
  lemma {:induction false} NextIsAnotherRun(lines: seq<Line>, i: nat, rich: bool)
    requires i < |lines| && NextAt(lines, i, rich) < |lines| && !lines[NextAt(lines, i, rich)].blank
    ensures !SameReader(ReaderAt(lines, i, rich), ReaderAt(lines, NextAt(lines, i, rich), rich))
  {
    var reader := ReaderAt(lines, i, rich);
    ReaderKinds(lines, i, rich);
    if reader.Some? && (reader.value.ListReader? || reader.value.ParagraphReader?) {
      EndStops(lines, reader.value, FirstTried(reader.value, i));
      StopIsAnotherRun(lines, reader.value, NextAt(lines, i, rich), rich);
    }
  }

  lemma {:induction false} FirstStart(lines: seq<Line>, i: nat, rich: bool)
    requires StartsFrom(lines, i, rich) != []
    ensures var first := StartsFrom(lines, i, rich)[0];
            i <= first < |lines| && !lines[first].blank && (first == i <==> !lines[i].blank)
    decreases |lines| - i
  {
    if i < |lines| && lines[i].blank {
      FirstStart(lines, i + 1, rich);
    }
  }

  lemma {:induction false} NextStart(lines: seq<Line>, i: nat, rich: bool, p: nat)
    requires p + 1 < |StartsFrom(lines, i, rich)|
    ensures var starts := StartsFrom(lines, i, rich);
            && starts[p] < |lines| && NextAt(lines, starts[p], rich) < |lines|
            && StartsFrom(lines, NextAt(lines, starts[p], rich), rich) != []
            && starts[p + 1] == StartsFrom(lines, NextAt(lines, starts[p], rich), rich)[0]
    decreases |lines| - i
  {
    if lines[i].blank {
      NextStart(lines, i + 1, rich, p);
    } else if p > 0 {
      NextStart(lines, NextAt(lines, i, rich), rich, p - 1);
    }
  }

  /** Two paragraphs, or two lists of one kind, that follow each other have a blank line between them. */
  lemma {:induction false} RunsAreKeptApart(lines: seq<Line>, rich: bool, p: nat)
    requires p + 1 < |StartsFrom(lines, 0, rich)|
    ensures var starts := StartsFrom(lines, 0, rich);
            && starts[p] < |lines| && starts[p + 1] < |lines|
            && (SameRun(BlockAt(lines, starts[p], rich), BlockAt(lines, starts[p + 1], rich)) ==>
                  SpanEnd(lines, starts[p], rich) < starts[p + 1] && lines[SpanEnd(lines, starts[p], rich)].blank)
  {
    var starts := StartsFrom(lines, 0, rich);
    NextStart(lines, 0, rich, p);
    var next := NextAt(lines, starts[p], rich);
    FirstStart(lines, next, rich);
    KindOfBlock(lines, ReaderAt(lines, starts[p], rich), starts[p]);
    KindOfBlock(lines, ReaderAt(lines, starts[p + 1], rich), starts[p + 1]);
    if !lines[next].blank {
      NextIsAnotherRun(lines, starts[p], rich);
    }
  }

  // ---- rich mode ----

  predicate TableAt(lines: seq<Line>, i: nat) {
    i < |lines| && ReaderAt(lines, i, true) == Some(TableReader)
  }

  predicate MeetsTable(lines: seq<Line>, starts: seq<nat>) {
    starts != [] && (TableAt(lines, starts[0]) || MeetsTable(lines, starts[1..]))
  }

  lemma {:induction false} MeetsTablePush(lines: seq<Line>, first: nat, rest: seq<nat>)
    ensures MeetsTable(lines, [first] + rest) <==> TableAt(lines, first) || MeetsTable(lines, rest)
  {
    assert ([first] + rest)[1..] == rest;
  }

  lemma {:induction false} MeetsTableSomewhere(lines: seq<Line>, starts: seq<nat>)
    ensures MeetsTable(lines, starts) <==> exists p :: 0 <= p < |starts| && TableAt(lines, starts[p])
  {
    if starts != [] {
      var rest := starts[1..];
      MeetsTableSomewhere(lines, rest);
      if p :| 0 <= p < |rest| && TableAt(lines, rest[p]) {
        assert TableAt(lines, starts[p + 1]);
      }
      if p :| 0 <= p < |starts| && TableAt(lines, starts[p]) {
        assert p > 0 ==> TableAt(lines, rest[p - 1]);
      }
    }
  }

  /** A rich paragraph ends where the plain one does, or at a table. */
  lemma {:induction false} ParagraphEnds(lines: seq<Line>, i: nat)
    ensures var end := EndFrom(lines, ParagraphReader(true), i);
            end == EndFrom(lines, ParagraphReader(false), i) || (end < |lines| && TableStartsAt(lines, end) && !OpensBlock(lines[end]))
    decreases |lines| - i
  {
    if i < |lines| && !Stops(lines, ParagraphReader(true), i) {
      ParagraphEnds(lines, i + 1);
    }
  }

  lemma {:induction false} TableIsMet(lines: seq<Line>, i: nat)
    requires i < |lines| && TableStartsAt(lines, i) && !OpensBlock(lines[i])
    ensures MeetsTable(lines, StartsFrom(lines, i, true))
  {
    assert TableAt(lines, i);
    MeetsTablePush(lines, i, StartsFrom(lines, NextAt(lines, i, true), true));
  }

  /** Other than at a table, the two modes call for readers of one kind. */
  lemma {:induction false} ReaderWithoutTable(lines: seq<Line>, i: nat)
    requires i < |lines| && !TableAt(lines, i)
    ensures var rich, plain := ReaderAt(lines, i, true), ReaderAt(lines, i, false);
            plain == if rich == Some(ParagraphReader(true)) then Some(ParagraphReader(false)) else rich
  {
  }

  lemma {:induction false} NextWithoutTable(lines: seq<Line>, i: nat)
    requires i < |lines| && !TableAt(lines, i) && !MeetsTable(lines, StartsFrom(lines, NextAt(lines, i, true), true))
    ensures NextAt(lines, i, true) == NextAt(lines, i, false)
  {
    ReaderWithoutTable(lines, i);
    if ReaderAt(lines, i, true) == Some(ParagraphReader(true)) {
      ParagraphEnds(lines, i + 1);
      var next := NextAt(lines, i, true);
      if next < |lines| && TableStartsAt(lines, next) && !OpensBlock(lines[next]) {
        TableIsMet(lines, next);
      }
    }
  }

  lemma {:induction false} StartsWithoutTable(lines: seq<Line>, i: nat)
    requires !MeetsTable(lines, StartsFrom(lines, i, true))
    ensures StartsFrom(lines, i, true) == StartsFrom(lines, i, false)
    decreases |lines| - i
  {
    if i < |lines| {
      if lines[i].blank {
        StartsWithoutTable(lines, i + 1);
      } else {
        MeetsTablePush(lines, i, StartsFrom(lines, NextAt(lines, i, true), true));
        NextWithoutTable(lines, i);
        StartsWithoutTable(lines, NextAt(lines, i, true));
      }
    }
  }

  /** Two readers of one kind at one place read the same block. */
  lemma {:induction false} SameReaderSameBlock(lines: seq<Line>, i: nat)
    requires i < |lines| && !TableAt(lines, i) && NextAt(lines, i, true) == NextAt(lines, i, false)
    ensures BlockAt(lines, i, true) == BlockAt(lines, i, false)
  {
    ReaderWithoutTable(lines, i);
  }

  lemma {:induction false} NotMetLater(lines: seq<Line>, i: nat, p: nat)
    requires p < |StartsFrom(lines, i, true)| && !MeetsTable(lines, StartsFrom(lines, i, true))
    ensures var start := StartsFrom(lines, i, true)[p];
            && start < |lines| && !TableAt(lines, start)
            && !MeetsTable(lines, StartsFrom(lines, NextAt(lines, start, true), true))
    decreases |lines| - i
  {
    if lines[i].blank {
      NotMetLater(lines, i + 1, p);
    } else {
      MeetsTablePush(lines, i, StartsFrom(lines, NextAt(lines, i, true), true));
      if p > 0 {
        NotMetLater(lines, NextAt(lines, i, true), p - 1);
      }
    }
  }

  lemma {:induction false} BlockKinds(lines: seq<Line>, i: nat, rich: bool)
    requires i < |lines|
    ensures BlockAt(lines, i, rich).Table? <==> ReaderAt(lines, i, rich) == Some(TableReader)
    ensures ReaderAt(lines, i, rich) == Some(TableReader) ==> rich
  {
    KindOfBlock(lines, ReaderAt(lines, i, rich), i);
  }

  lemma {:induction false} BlocksWithoutTable(lines: seq<Line>, rich: seq<Block>, plain: seq<Block>)
    requires AreBlocks(lines, true, StartsFrom(lines, 0, true), rich) && AreBlocks(lines, false, StartsFrom(lines, 0, false), plain)
    requires !MeetsTable(lines, StartsFrom(lines, 0, true))
    ensures rich == plain
  {
    StartsWithoutTable(lines, 0);
    var starts := StartsFrom(lines, 0, true);
    forall p | 0 <= p < |rich|
      ensures rich[p] == plain[p]
    {
      NotMetLater(lines, 0, p);
      NextWithoutTable(lines, starts[p]);
      SameReaderSameBlock(lines, starts[p]);
    }
  }

  /** Rich and plain reading give one result exactly when rich reading meets no table. */
  lemma {:induction false} ModesAgreeWithoutTables(lines: seq<Line>, rich: seq<Block>, plain: seq<Block>)
    requires AreBlocks(lines, true, StartsFrom(lines, 0, true), rich) && AreBlocks(lines, false, StartsFrom(lines, 0, false), plain)
    ensures rich == plain <==> !exists p :: 0 <= p < |rich| && rich[p].Table?
  {
    var starts := StartsFrom(lines, 0, true);
    forall p | 0 <= p < |rich|
      ensures rich[p].Table? <==> TableAt(lines, starts[p])
    {
      BlockKinds(lines, starts[p], true);
    }
    MeetsTableSomewhere(lines, starts);
    forall p | 0 <= p < |plain|
      ensures !plain[p].Table?
    {
      BlockKinds(lines, StartsFrom(lines, 0, false)[p], false);
    }
    if !exists p :: 0 <= p < |rich| && rich[p].Table? {
      BlocksWithoutTable(lines, rich, plain);
    }
  }

  /** A text where no table starts reads the same in both modes. */
  lemma {:induction false} NoTableStarts(lines: seq<Line>, rich: seq<Block>, plain: seq<Block>)
    requires AreBlocks(lines, true, StartsFrom(lines, 0, true), rich) && AreBlocks(lines, false, StartsFrom(lines, 0, false), plain)
    requires forall l :: 0 <= l < |lines| ==> !TableStartsAt(lines, l)
    ensures rich == plain
  {
    forall p | 0 <= p < |rich|
      ensures !rich[p].Table?
    {
      BlockKinds(lines, StartsFrom(lines, 0, true)[p], true);
    }
    ModesAgreeWithoutTables(lines, rich, plain);
  }

  // ---- tables ----

  lemma {:induction false} FitRowsAre(lines: seq<Line>, width: nat, r: nat)
    requires r < |lines|
    ensures FitRows(lines, width)[r] == FitRow(lines[r].cells, width)
  {
    if r < |lines| - 1 {
      FitRowsAre(lines[..|lines| - 1], width, r);
    }
  }

  /** A rectangle read from the lines `from` to `to`: as many separator cells as header cells, and every line after them a row of that width. */
  ghost predicate Rectangle(lines: seq<Line>, table: Block, from: nat, to: nat) {
    && table.Table? && from + 2 <= to <= |lines|
    && table.header == lines[from].cells && |table.header| == |lines[from + 1].cells|
    && |table.rows| == to - from - 2
    && forall r {:trigger table.rows[r]} :: 0 <= r < |table.rows| ==>
         |table.rows[r]| == |table.header| && table.rows[r] == FitRow(lines[from + 2 + r].cells, |table.header|)
  }

  lemma {:induction false} FittedRowsMakeRectangle(lines: seq<Line>, from: nat, to: nat)
    requires from + 2 <= to <= |lines| && |lines[from].cells| == |lines[from + 1].cells|
    ensures Rectangle(lines, Table(lines[from].cells, FitRows(lines[from + 2..to], |lines[from].cells|)), from, to)
  {
    var width := |lines[from].cells|;
    var body := lines[from + 2..to];
    var rows := FitRows(body, width);
    forall r | 0 <= r < |rows|
      ensures rows[r] == FitRow(lines[from + 2 + r].cells, width)
    {
      FitRowsAre(body, width, r);
      assert body[r] == lines[from + 2 + r];
    }
  }

  /** Every table block is a rectangle of the lines it spans. */
  lemma {:induction false} TablesAreRectangular(lines: seq<Line>, rich: bool, i: nat)
    requires i < |lines| && BlockAt(lines, i, rich).Table?
    ensures Rectangle(lines, BlockAt(lines, i, rich), i, SpanEnd(lines, i, rich))
  {
    BlockKinds(lines, i, rich);
    FittedRowsMakeRectangle(lines, i, EndFrom(lines, TableReader, i + 2));
  }

  // ---- a blank line cuts a text in two ----

  lemma {:induction false} StopsMoved(head: seq<Line>, tail: seq<Line>, reader: Reader, i: nat)
    requires head != [] && i < |tail|
    ensures Stops(head + tail, reader, |head| + i) == Stops(tail, reader, i)
  {
    var all := head + tail;
    assert all[|head| + i] == tail[i];
    assert i + 1 < |tail| ==> all[|head| + i + 1] == tail[i + 1];
  }

  lemma {:induction false} EndMoved(head: seq<Line>, tail: seq<Line>, reader: Reader, i: nat)
    requires head != []
    ensures EndFrom(head + tail, reader, |head| + i) == |head| + EndFrom(tail, reader, i)
    decreases |tail| - i
  {
    if i < |tail| {
      StopsMoved(head, tail, reader, i);
      if !Stops(tail, reader, i) {
        EndMoved(head, tail, reader, i + 1);
      }
    }
  }

  lemma {:induction false} ReaderMoved(head: seq<Line>, tail: seq<Line>, i: nat, rich: bool)
    requires head != [] && i < |tail|
    ensures ReaderAt(head + tail, |head| + i, rich) == ReaderAt(tail, i, rich)
  {
    var all := head + tail;
    assert all[|head| + i] == tail[i];
    assert i + 1 < |tail| ==> all[|head| + i + 1] == tail[i + 1];
    assert TableStartsAt(all, |head| + i) == TableStartsAt(tail, i);
  }

  lemma {:induction false} NextMoved(head: seq<Line>, tail: seq<Line>, i: nat, rich: bool)
    requires head != [] && i < |tail|
    ensures NextAt(head + tail, |head| + i, rich) == |head| + NextAt(tail, i, rich)
  {
    ReaderMoved(head, tail, i, rich);
    var reader := ReaderAt(tail, i, rich);
    if reader.Some? {
      EndMoved(head, tail, reader.value, FirstTried(reader.value, i));
    }
  }

  lemma {:induction false} SliceMoved(head: seq<Line>, tail: seq<Line>, i: nat, j: nat)
    requires i <= j <= |tail|
    ensures (head + tail)[|head| + i..|head| + j] == tail[i..j]
  {
  }

  lemma {:induction false} BlockMoved(head: seq<Line>, tail: seq<Line>, i: nat, rich: bool)
    requires head != [] && i < |tail|
    ensures BlockAt(head + tail, |head| + i, rich) == BlockAt(tail, i, rich)
  {
    ReaderMoved(head, tail, i, rich);
    assert (head + tail)[|head| + i] == tail[i];
    BlockOfMoved(head, tail, ReaderAt(tail, i, rich), i);
  }

  /** A reader that takes the same lines at two places reads one block. */
  lemma {:induction false} SameLinesSameBlock(a: seq<Line>, i: nat, endA: nat, b: seq<Line>, j: nat, endB: nat, reader: Reader)
    requires i < |a| && j < |b| && a[i] == b[j] && (reader == TableReader ==> i + 1 < |a| && j + 1 < |b|)
    requires endA == EndFrom(a, reader, FirstTried(reader, i)) && endB == EndFrom(b, reader, FirstTried(reader, j))
    requires InsideFrom(reader, i) <= endA <= |a| && InsideFrom(reader, j) <= endB <= |b|
    requires a[InsideFrom(reader, i)..endA] == b[InsideFrom(reader, j)..endB]
    ensures BlockOf(a, Some(reader), i) == BlockOf(b, Some(reader), j)
  {
  }

  lemma {:induction false} EndInside(lines: seq<Line>, reader: Reader, i: nat)
    requires i < |lines| && (reader == TableReader ==> i + 1 < |lines|)
    ensures InsideFrom(reader, i) <= EndFrom(lines, reader, FirstTried(reader, i)) <= |lines|
  {
  }

  lemma {:induction false} InsideMoved(head: seq<Line>, tail: seq<Line>, reader: Reader, i: nat)
    requires head != [] && i < |tail| && (reader == TableReader ==> i + 1 < |tail|)
    ensures BlockOf(head + tail, Some(reader), |head| + i) == BlockOf(tail, Some(reader), i)
  {
    var from, end := InsideFrom(reader, i), EndFrom(tail, reader, FirstTried(reader, i));
    assert (head + tail)[|head| + i] == tail[i];
    EndMoved(head, tail, reader, FirstTried(reader, i));
    EndInside(tail, reader, i);
    SliceMoved(head, tail, from, end);
    SameLinesSameBlock(head + tail, |head| + i, |head| + end, tail, i, end, reader);
  }

  lemma {:induction false} BlockOfMoved(head: seq<Line>, tail: seq<Line>, reader: Option<Reader>, i: nat)
    requires head != [] && i < |tail| && (reader == Some(TableReader) ==> i + 1 < |tail|)
    ensures BlockOf(head + tail, reader, |head| + i) == BlockOf(tail, reader, i)
  {
    assert (head + tail)[|head| + i] == tail[i];
    if reader.Some? {
      InsideMoved(head, tail, reader.value, i);
    }
  }

  function MovedDown(starts: seq<nat>, down: nat): (moved: seq<nat>)
    ensures |moved| == |starts|
  {
    if starts == [] then [] else [starts[0] + down] + MovedDown(starts[1..], down)
  }

  lemma {:induction false} MovedDownAt(starts: seq<nat>, down: nat, p: nat)
    requires p < |starts|
    ensures MovedDown(starts, down)[p] == starts[p] + down
  {
    if p > 0 {
      MovedDownAt(starts[1..], down, p - 1);
    }
  }

  lemma {:induction false} MovedDownPush(first: nat, rest: seq<nat>, down: nat)
    ensures MovedDown([first] + rest, down) == [first + down] + MovedDown(rest, down)
  {
    assert ([first] + rest)[1..] == rest;
  }

  /** Reading from line `i` finds the same starts when the text stands further down. */
  ghost predicate Moves(head: seq<Line>, tail: seq<Line>, i: nat, rich: bool) {
    StartsFrom(head + tail, |head| + i, rich) == MovedDown(StartsFrom(tail, i, rich), |head|)
  }

  lemma {:induction false} MovesAtBlank(head: seq<Line>, tail: seq<Line>, i: nat, rich: bool)
    requires head != [] && i < |tail| && tail[i].blank && Moves(head, tail, i + 1, rich)
    ensures Moves(head, tail, i, rich)
  {
    assert (head + tail)[|head| + i] == tail[i];
    assert StartsFrom(tail, i, rich) == StartsFrom(tail, i + 1, rich);
  }

  lemma {:induction false} MovesAtBlock(head: seq<Line>, tail: seq<Line>, i: nat, rich: bool, next: nat)
    requires head != [] && i < |tail| && !tail[i].blank && next == NextAt(tail, i, rich) && Moves(head, tail, next, rich)
    ensures Moves(head, tail, i, rich)
  {
    NextMoved(head, tail, i, rich);
    MovesOneStep(head, tail, i, rich, next, |head| + next);
  }

  lemma {:induction false} MovesOneStep(head: seq<Line>, tail: seq<Line>, i: nat, rich: bool, next: nat, movedNext: nat)
    requires head != [] && i < |tail| && !tail[i].blank && movedNext == |head| + next
    requires next == NextAt(tail, i, rich) && movedNext == NextAt(head + tail, |head| + i, rich)
    requires Moves(head, tail, next, rich)
    ensures Moves(head, tail, i, rich)
  {
    assert (head + tail)[|head| + i] == tail[i];
    StartsAtBlock(tail, rich, i, next);
    StartsAtBlock(head + tail, rich, |head| + i, movedNext);
    MovedDownPush(i, StartsFrom(tail, next, rich), |head|);
  }

  lemma {:induction false} StartsMoved(head: seq<Line>, tail: seq<Line>, i: nat, rich: bool)
    requires head != []
    ensures Moves(head, tail, i, rich)
    decreases |tail| - i
  {
    if i < |tail| {
      if tail[i].blank {
        StartsMoved(head, tail, i + 1, rich);
        MovesAtBlank(head, tail, i, rich);
      } else {
        var next := NextAt(tail, i, rich);
        StartsMoved(head, tail, next, rich);
        MovesAtBlock(head, tail, i, rich, next);
      }
    }
  }

  /** Reading from line `i` ends inside fenced code whose closing fence is missing. */
  predicate EndsInCode(lines: seq<Line>, i: nat, rich: bool)
    decreases |lines| - i
  {
    i < |lines| &&
    if lines[i].blank then EndsInCode(lines, i + 1, rich)
    else NextAt(lines, i, rich) > |lines| || EndsInCode(lines, NextAt(lines, i, rich), rich)
  }

  const BLANK: seq<Line> := [Tested("")]

  /** What the tests say of the empty line. */
  predicate IsEmptyLine(line: Line) {
    line.blank && !line.fence && !line.heading && line.item.None? && !line.piped && !line.separator
  }

  lemma {:induction false} BlankTests()
    ensures |BLANK| == 1 && IsEmptyLine(BLANK[0])
  {
    assert Divide(Inner("")) == [""];
    assert Cells("") == [""];
    assert !IsSeparatorCell(Cells("")[0]);
  }

  lemma {:induction false} BlankBetween(a: seq<Line>, b: seq<Line>)
    ensures |a + BLANK + b| == |a| + 1 + |b| && IsEmptyLine((a + BLANK + b)[|a|])
  {
    BlankTests();
    assert (a + BLANK + b)[|a|] == BLANK[0];
  }

  lemma {:induction false} BlankStopsReaders(lines: seq<Line>, reader: Reader, i: nat)
    requires i < |lines| && IsEmptyLine(lines[i]) && !reader.CodeReader?
    ensures Stops(lines, reader, i)
  {
  }

  lemma {:induction false} TableKept(a: seq<Line>, b: seq<Line>, i: nat)
    requires i < |a|
    ensures TableStartsAt(a + BLANK + b, i) == TableStartsAt(a, i)
  {
    var all := a + BLANK + b;
    assert all[i] == a[i];
    if i + 1 < |a| {
      assert all[i + 1] == a[i + 1];
    } else {
      BlankBetween(a, b);
    }
  }

  lemma {:induction false} StopsKept(a: seq<Line>, b: seq<Line>, reader: Reader, i: nat)
    requires i < |a|
    ensures Stops(a + BLANK + b, reader, i) == Stops(a, reader, i)
  {
    assert (a + BLANK + b)[i] == a[i];
    TableKept(a, b, i);
  }

  lemma {:induction false} EndKept(a: seq<Line>, b: seq<Line>, reader: Reader, i: nat)
    requires i <= |a|
    requires reader.CodeReader? ==> EndFrom(a, reader, i) < |a|
    ensures EndFrom(a + BLANK + b, reader, i) == EndFrom(a, reader, i)
    decreases |a| - i
  {
    if i == |a| {
      BlankBetween(a, b);
      BlankStopsReaders(a + BLANK + b, reader, i);
    } else {
      StopsKept(a, b, reader, i);
      if !Stops(a, reader, i) {
        EndKept(a, b, reader, i + 1);
      }
    }
  }

  lemma {:induction false} ReaderKept(a: seq<Line>, b: seq<Line>, i: nat, rich: bool)
    requires i < |a|
    ensures ReaderAt(a + BLANK + b, i, rich) == ReaderAt(a, i, rich)
  {
    assert (a + BLANK + b)[i] == a[i];
    TableKept(a, b, i);
  }

  lemma {:induction false} NextKept(a: seq<Line>, b: seq<Line>, i: nat, rich: bool)
    requires i < |a| && NextAt(a, i, rich) <= |a|
    ensures NextAt(a + BLANK + b, i, rich) == NextAt(a, i, rich)
    ensures BlockAt(a + BLANK + b, i, rich) == BlockAt(a, i, rich)
  {
    ReaderKept(a, b, i, rich);
    var reader := ReaderAt(a, i, rich);
    BlockOfKept(a, b, reader, i);
  }

  lemma {:induction false} BlockOfKept(a: seq<Line>, b: seq<Line>, reader: Option<Reader>, i: nat)
    requires i < |a| && NextOf(a, reader, i) <= |a| && (reader == Some(TableReader) ==> i + 1 < |a|)
    ensures NextOf(a + BLANK + b, reader, i) == NextOf(a, reader, i)
    ensures BlockOf(a + BLANK + b, reader, i) == BlockOf(a, reader, i)
  {
    var all := a + BLANK + b;
    assert all[i] == a[i];
    if reader.Some? {
      var end := EndFrom(a, reader.value, FirstTried(reader.value, i));
      var from := InsideFrom(reader.value, i);
      EndKept(a, b, reader.value, FirstTried(reader.value, i));
      EndInside(a, reader.value, i);
      SliceKept(a, b, from, end);
      SameLinesSameBlock(all, i, end, a, i, end, reader.value);
    }
  }

  lemma {:induction false} SliceKept(a: seq<Line>, b: seq<Line>, i: nat, j: nat)
    requires i <= j <= |a|
    ensures (a + BLANK + b)[i..j] == a[i..j]
  {
  }

  lemma {:induction false} FirstGoesFirst(first: nat, rest: seq<nat>, tail: seq<nat>)
    ensures [first] + (rest + tail) == ([first] + rest) + tail
  {
  }

  lemma {:induction false} StartsKept(a: seq<Line>, b: seq<Line>, i: nat, rich: bool)
    requires i <= |a| && !EndsInCode(a, i, rich)
    ensures StartsFrom(a + BLANK + b, i, rich) == StartsFrom(a, i, rich) + StartsFrom(a + BLANK + b, |a| + 1, rich)
    decreases |a| - i
  {
    var all := a + BLANK + b;
    if i == |a| {
      BlankBetween(a, b);
    } else {
      assert all[i] == a[i];
      if a[i].blank {
        StartsKept(a, b, i + 1, rich);
      } else {
        NextKept(a, b, i, rich);
        var next := NextAt(a, i, rich);
        StartsKept(a, b, next, rich);
        FirstGoesFirst(i, StartsFrom(a, next, rich), StartsFrom(all, |a| + 1, rich));
      }
    }
  }

  lemma {:induction false} StartsClosed(a: seq<Line>, i: nat, rich: bool, p: nat)
    requires !EndsInCode(a, i, rich) && p < |StartsFrom(a, i, rich)|
    ensures StartsFrom(a, i, rich)[p] < |a| && NextAt(a, StartsFrom(a, i, rich)[p], rich) <= |a|
    decreases |a| - i
  {
    if a[i].blank {
      StartsClosed(a, i + 1, rich, p);
    } else if p > 0 {
      StartsClosed(a, NextAt(a, i, rich), rich, p - 1);
    }
  }

  lemma {:induction false} FirstBlocksKept(a: seq<Line>, b: seq<Line>, rich: bool, blocks: seq<Block>)
    requires AreBlocks(a, rich, StartsFrom(a, 0, rich), blocks) && !EndsInCode(a, 0, rich)
    ensures AreBlocks(a + BLANK + b, rich, StartsFrom(a, 0, rich), blocks)
  {
    var starts := StartsFrom(a, 0, rich);
    forall p | 0 <= p < |blocks|
      ensures starts[p] < |a + BLANK + b| && blocks[p] == BlockAt(a + BLANK + b, starts[p], rich)
    {
      StartsClosed(a, 0, rich, p);
      NextKept(a, b, starts[p], rich);
    }
  }

  lemma {:induction false} SecondBlocksMoved(head: seq<Line>, b: seq<Line>, rich: bool, starts: seq<nat>, blocks: seq<Block>)
    requires head != [] && AreBlocks(b, rich, starts, blocks)
    ensures AreBlocks(head + b, rich, MovedDown(starts, |head|), blocks)
  {
    var moved := MovedDown(starts, |head|);
    forall p | 0 <= p < |blocks|
      ensures moved[p] < |head + b| && blocks[p] == BlockAt(head + b, moved[p], rich)
    {
      SecondBlockMoved(head, b, rich, starts, blocks, p);
    }
  }

  lemma {:induction false} SecondBlockMoved(head: seq<Line>, b: seq<Line>, rich: bool, starts: seq<nat>, blocks: seq<Block>, p: nat)
    requires head != [] && AreBlocks(b, rich, starts, blocks) && p < |blocks|
    ensures var moved := MovedDown(starts, |head|);
            moved[p] < |head + b| && blocks[p] == BlockAt(head + b, moved[p], rich)
  {
    var i := starts[p];
    assert i < |b| && blocks[p] == BlockAt(b, i, rich);
    MovedDownAt(starts, |head|, p);
    BlockMoved(head, b, i, rich);
  }

  lemma {:induction false} StartsCut(a: seq<Line>, b: seq<Line>, rich: bool)
    requires !EndsInCode(a, 0, rich)
    ensures StartsFrom(a + BLANK + b, 0, rich) == StartsFrom(a, 0, rich) + MovedDown(StartsFrom(b, 0, rich), |a + BLANK|)
  {
    var head := a + BLANK;
    StartsKept(a, b, 0, rich);
    StartsMoved(head, b, 0, rich);
    assert StartsFrom(head + b, |head| + 0, rich) == MovedDown(StartsFrom(b, 0, rich), |head|);
  }

  lemma {:induction false} AreBlocksJoin(lines: seq<Line>, rich: bool, first: seq<nat>, second: seq<nat>, blocksA: seq<Block>, blocksB: seq<Block>)
    requires AreBlocks(lines, rich, first, blocksA) && AreBlocks(lines, rich, second, blocksB)
    ensures AreBlocks(lines, rich, first + second, blocksA + blocksB)
  {
    forall p | 0 <= p < |first + second|
      ensures (first + second)[p] < |lines| && (blocksA + blocksB)[p] == BlockAt(lines, (first + second)[p], rich)
    {
      if p < |first| {
        assert blocksA[p] == BlockAt(lines, first[p], rich);
      } else {
        assert blocksB[p - |first|] == BlockAt(lines, second[p - |first|], rich);
      }
    }
  }

  /** Unless the first text ends inside code, two texts with a blank line between them read as the blocks of the one, then those of the other. */
  lemma {:induction false} BlankLineCuts(a: seq<Line>, b: seq<Line>, rich: bool, blocksA: seq<Block>, blocksB: seq<Block>)
    requires AreBlocks(a, rich, StartsFrom(a, 0, rich), blocksA) && AreBlocks(b, rich, StartsFrom(b, 0, rich), blocksB)
    requires !EndsInCode(a, 0, rich)
    ensures AreBlocks(a + BLANK + b, rich, StartsFrom(a + BLANK + b, 0, rich), blocksA + blocksB)
  {
    var first, second := StartsFrom(a, 0, rich), StartsFrom(b, 0, rich);
    FirstBlocksKept(a, b, rich, blocksA);
    SecondBlocksMoved(a + BLANK, b, rich, second, blocksB);
    StartsCut(a, b, rich);
    AreBlocksJoin(a + BLANK + b, rich, first, MovedDown(second, |a + BLANK|), blocksA, blocksB);
  }
}
