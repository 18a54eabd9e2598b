// Pipe-table rows of the markdown reader (studio/src/lib/markdown.ts:67-91), after section 4.10 of the
// GitHub Flavored Markdown spec: splitting a row into cells, and why printing a row and splitting it again
// gives the cells back.
module MarkdownTables {
  import opened Strings

  const PIPE := '|'
  const BACKSLASH := '\\'

  predicate EndsWith(s: string, c: char) {
    s != "" && s[|s| - 1] == c
  }

  /** A row ends with a pipe that no backslash escapes. */
  predicate EndsWithBarePipe(row: string) {
    EndsWith(row, PIPE) && !EndsWith(row[..|row| - 1], BACKSLASH)
  }

  /** The pieces of a row between its pipes; a pipe right after a backslash does not divide. */
  function Divide(row: string): (pieces: seq<string>)
    ensures pieces != []
  {
    if row == "" then [""]
    else
      var before, last := row[..|row| - 1], row[|row| - 1];
      var pieces := Divide(before);
      if last == PIPE && !EndsWith(before, BACKSLASH) then pieces + [""] else Glue(pieces, [last])
  }

  /** The pieces with `more` added to the last one. */
  function Glue(pieces: seq<string>, more: string): (r: seq<string>)
    requires pieces != []
    ensures |r| == |pieces|
  {
    pieces[..|pieces| - 1] + [pieces[|pieces| - 1] + more]
  }

  /** A cell's text with every `\|` read as a pipe. */
  function Unescape(s: string): string {
    if s == "" then ""
    else if |s| >= 2 && s[0] == BACKSLASH && s[1] == PIPE then [PIPE] + Unescape(s[2..])
    else [s[0]] + Unescape(s[1..])
  }

  function CellsOf(pieces: seq<string>): (cells: seq<string>)
    ensures |cells| == |pieces|
  {
    if pieces == [] then [] else CellsOf(pieces[..|pieces| - 1]) + [Trim(Unescape(pieces[|pieces| - 1]))]
  }

  /** The row between its outer pipes. */
  function Inner(line: string): string {
    var row := Trim(line);
    var rest := if row != "" && row[0] == PIPE then row[1..] else row;
    if EndsWithBarePipe(rest) then rest[..|rest| - 1] else rest
  }

  function Cells(line: string): (cells: seq<string>)
    ensures cells != []
  {
    CellsOf(Divide(Inner(line)))
  }

  function DashRun(s: string): (n: nat)
    ensures n <= |s|
  {
    if s != "" && s[0] == '-' then 1 + DashRun(s[1..]) else 0
  }

  /** Dashes, with an optional colon on either side. */
  predicate IsSeparatorCell(cell: string) {
    var rest := if cell != "" && cell[0] == ':' then cell[1..] else cell;
    var dashes := DashRun(rest);
    dashes >= 1 && (rest[dashes..] == "" || rest[dashes..] == ":")
  }

  predicate IsSeparatorRow(line: string) {
    forall p :: 0 <= p < |Cells(line)| ==> IsSeparatorCell(Cells(line)[p])
  }

  /** As many cells as asked for: the row's own ones first, empty ones where it is too short. */
  function FitRow(cells: seq<string>, width: nat): (row: seq<string>)
    ensures |row| == width
    ensures forall p :: 0 <= p < width ==> row[p] == if p < |cells| then cells[p] else ""
  {
    if width == 0 then [] else FitRow(cells, width - 1) + [if width <= |cells| then cells[width - 1] else ""]
  }

  // ---- printing a row ----

  /** A cell's text with every pipe written as `\|`. */
  function Escape(cell: string): string {
    if cell == "" then ""
    else (if cell[0] == PIPE then [BACKSLASH, PIPE] else [cell[0]]) + Escape(cell[1..])
  }

  /** The cells between single pipes. */
  function Body(cells: seq<string>): string
    requires cells != []
  {
    if |cells| == 1 then Escape(cells[0])
    else Body(cells[..|cells| - 1]) + [PIPE] + Escape(cells[|cells| - 1])
  }

  function PrintRow(cells: seq<string>): string
    requires cells != []
  {
    [PIPE] + Body(cells) + [PIPE]
  }

  function Trimmed(cells: seq<string>): (r: seq<string>)
    ensures |r| == |cells|
  {
    if cells == [] then [] else Trimmed(cells[..|cells| - 1]) + [Trim(cells[|cells| - 1])]
  }

  lemma {:induction false} UnescapeUndoesEscape(cell: string)
    ensures Unescape(Escape(cell)) == cell
    ensures Escape(cell) == "" || Escape(cell)[0] != PIPE
  {
    if cell != "" {
      UnescapeUndoesEscape(cell[1..]);
      var rest := Escape(cell[1..]);
      if cell[0] == PIPE {
        assert Escape(cell)[2..] == rest;
      } else {
        assert Escape(cell)[1..] == rest;
      }
      assert cell == [cell[0]] + cell[1..];
    }
  }

  /** Every pipe of `s` follows a backslash of `s`. */
  ghost predicate PipesEscaped(s: string) {
    forall i :: 0 <= i < |s| && s[i] == PIPE ==> i > 0 && s[i - 1] == BACKSLASH
  }

  // ---- what dividing a row means ----

  /** The pieces with a pipe between each two. */
  function Rejoined(pieces: seq<string>): string {
    if pieces == [] then ""
    else if |pieces| == 1 then pieces[0]
    else Rejoined(pieces[..|pieces| - 1]) + [PIPE] + pieces[|pieces| - 1]
  }

  /** The pieces make up the row, every pipe inside one follows a backslash, and no pipe between two does. */
  ghost predicate IsDivision(pieces: seq<string>, row: string) {
    && pieces != [] && Rejoined(pieces) == row
    && forall p :: 0 <= p < |pieces| ==> PipesEscaped(pieces[p]) && (p < |pieces| - 1 ==> !EndsWith(pieces[p], BACKSLASH))
  }

  lemma {:induction false} RejoinedEnd(pieces: seq<string>)
    requires pieces != []
    ensures EndsWith(Rejoined(pieces), BACKSLASH) <==> EndsWith(pieces[|pieces| - 1], BACKSLASH)
  {
    if |pieces| > 1 && pieces[|pieces| - 1] == "" {
      var front := Rejoined(pieces[..|pieces| - 1]);
      assert Rejoined(pieces) == front + [PIPE];
    }
  }

  lemma {:induction false} RejoinedGlue(pieces: seq<string>, more: string)
    requires pieces != []
    ensures Rejoined(Glue(pieces, more)) == Rejoined(pieces) + more
  {
    var glued := Glue(pieces, more);
    assert glued[..|glued| - 1] == pieces[..|pieces| - 1];
  }

  lemma {:induction false} EscapedLonger(piece: string, c: char)
    ensures PipesEscaped(piece + [c]) <==> PipesEscaped(piece) && (c == PIPE ==> EndsWith(piece, BACKSLASH))
  {
    var longer := piece + [c];
    if PipesEscaped(longer) {
      forall i | 0 <= i < |piece| && piece[i] == PIPE
        ensures i > 0 && piece[i - 1] == BACKSLASH
      {
        assert longer[i] == PIPE && (i > 0 ==> longer[i - 1] == piece[i - 1]);
      }
      if c == PIPE {
        assert longer[|piece|] == PIPE && (piece != "" ==> longer[|piece| - 1] == piece[|piece| - 1]);
      }
    }
  }

  /** Dividing a row gives a division of it. */
  lemma {:induction false} DivideDivides(row: string)
    ensures IsDivision(Divide(row), row)
  {
    if row != "" {
      var before, last := row[..|row| - 1], row[|row| - 1];
      var pieces := Divide(before);
      DivideDivides(before);
      RejoinedEnd(pieces);
      assert row == before + [last];
      if last == PIPE && !EndsWith(before, BACKSLASH) {
        assert (pieces + [""])[..|pieces|] == pieces;
      } else {
        RejoinedGlue(pieces, [last]);
        EscapedLonger(pieces[|pieces| - 1], last);
      }
    }
  }

  /** A row has no other division: dividing it is exactly splitting it at the pipes that no backslash escapes. */
  lemma {:induction false} OneDivision(pieces: seq<string>, row: string)
    ensures IsDivision(pieces, row) <==> pieces == Divide(row)
    decreases |row|
  {
    DivideDivides(row);
    if IsDivision(pieces, row) {
      var front, last := pieces[..|pieces| - 1], pieces[|pieces| - 1];
      assert pieces == front + [last];
      if last != "" {
        ShorterDivision(pieces, row);
        OneDivision(front + [last[..|last| - 1]], row[..|row| - 1]);
      } else if |pieces| > 1 {
        FrontDivision(pieces, row);
        OneDivision(front, row[..|row| - 1]);
        RejoinedEnd(front);
      }
    }
  }

  lemma {:induction false} ShorterDivision(pieces: seq<string>, row: string)
    requires IsDivision(pieces, row) && pieces[|pieces| - 1] != ""
    ensures var front, last := pieces[..|pieces| - 1], pieces[|pieces| - 1];
            var c, shorter := last[|last| - 1], front + [last[..|last| - 1]];
            && row != "" && row == row[..|row| - 1] + [c] && IsDivision(shorter, row[..|row| - 1])
            && pieces == Glue(shorter, [c]) && (c == PIPE ==> EndsWith(row[..|row| - 1], BACKSLASH))
  {
    var front, last := pieces[..|pieces| - 1], pieces[|pieces| - 1];
    var c, shorter := last[|last| - 1], front + [last[..|last| - 1]];
    assert last == last[..|last| - 1] + [c];
    EscapedLonger(last[..|last| - 1], c);
    assert Glue(shorter, [c]) == pieces;
    RejoinedGlue(shorter, [c]);
    assert row[..|row| - 1] == Rejoined(shorter);
    RejoinedEnd(shorter);
    forall p | 0 <= p < |shorter|
      ensures PipesEscaped(shorter[p]) && (p < |shorter| - 1 ==> !EndsWith(shorter[p], BACKSLASH))
    {
      assert p < |front| ==> shorter[p] == pieces[p];
    }
  }

  lemma {:induction false} FrontDivision(pieces: seq<string>, row: string)
    requires IsDivision(pieces, row) && |pieces| > 1 && pieces[|pieces| - 1] == ""
    ensures var front := pieces[..|pieces| - 1];
            && row != "" && row[|row| - 1] == PIPE && IsDivision(front, row[..|row| - 1])
            && !EndsWith(front[|front| - 1], BACKSLASH) && Rejoined(front) == row[..|row| - 1]
  {
    var front := pieces[..|pieces| - 1];
    assert row == Rejoined(front) + [PIPE];
  }

  lemma {:induction false} EscapeEscapes(cell: string)
    ensures PipesEscaped(Escape(cell))
    ensures EndsWith(Escape(cell), BACKSLASH) <==> EndsWith(cell, BACKSLASH)
  {
    if cell != "" {
      EscapeEscapes(cell[1..]);
      UnescapeUndoesEscape(cell[1..]);
      var head := if cell[0] == PIPE then [BACKSLASH, PIPE] else [cell[0]];
      var rest := Escape(cell[1..]);
      assert Escape(cell) == head + rest;
      assert rest == "" ==> cell[1..] == "";
      forall i | 0 <= i < |head + rest| && (head + rest)[i] == PIPE
        ensures i > 0 && (head + rest)[i - 1] == BACKSLASH
      {
        if i >= |head| {
          assert rest[i - |head|] == PIPE;
        }
      }
    }
  }

  lemma {:induction false} GlueGlue(pieces: seq<string>, a: string, b: string)
    requires pieces != []
    ensures Glue(Glue(pieces, a), b) == Glue(pieces, a + b)
  {
    var last := pieces[|pieces| - 1];
    assert (last + a) + b == last + (a + b);
  }

  /** Text with no bare pipe only lengthens the last piece. */
  lemma {:induction false} DivideText(row: string, text: string)
    requires PipesEscaped(text)
    ensures Divide(row + text) == Glue(Divide(row), text)
    decreases |text|
  {
    if text == "" {
      assert row + text == row;
      var pieces := Divide(row);
      assert pieces[|pieces| - 1] + "" == pieces[|pieces| - 1];
    } else {
      var last := |text| - 1;
      var front := text[..last];
      assert forall i :: 0 <= i < |front| ==> front[i] == text[i];
      DivideText(row, front);
      assert (row + text)[..|row + text| - 1] == row + front;
      if text[last] == PIPE {
        assert EndsWith(row + front, BACKSLASH);
      }
      GlueGlue(Divide(row), front, [text[last]]);
      assert text == front + [text[last]];
    }
  }

  function Escaped(cells: seq<string>): (r: seq<string>)
    ensures |r| == |cells|
  {
    if cells == [] then [] else Escaped(cells[..|cells| - 1]) + [Escape(cells[|cells| - 1])]
  }

  /** Printed cells end in a backslash exactly when the last cell does. */
  lemma {:induction false} BodyEnd(cells: seq<string>)
    requires cells != []
    ensures EndsWith(Body(cells), BACKSLASH) <==> EndsWith(cells[|cells| - 1], BACKSLASH)
  {
    var last := Escape(cells[|cells| - 1]);
    EscapeEscapes(cells[|cells| - 1]);
    if |cells| > 1 {
      var front := Body(cells[..|cells| - 1]) + [PIPE];
      assert last == "" ==> EndsWith(front + last, PIPE);
      assert last != "" ==> (front + last)[|front + last| - 1] == last[|last| - 1];
      EscapeNonEmpty(cells[|cells| - 1]);
    }
  }

  lemma {:induction false} EscapeNonEmpty(cell: string)
    ensures Escape(cell) == "" <==> cell == ""
  {
  }

  /** Dividing one more printed cell: a new piece, unless the cell before ends in a backslash and swallows the pipe. */
  lemma {:induction false} DivideCell(front: string, cell: string)
    ensures Divide(front + [PIPE] + Escape(cell)) ==
            if EndsWith(front, BACKSLASH) then Glue(Divide(front), [PIPE] + Escape(cell)) else Divide(front) + [Escape(cell)]
  {
    EscapeEscapes(cell);
    DivideText(front + [PIPE], Escape(cell));
    assert (front + [PIPE])[..|front|] == front;
    if EndsWith(front, BACKSLASH) {
      GlueGlue(Divide(front), [PIPE], Escape(cell));
    } else {
      assert (Divide(front) + [""])[..|Divide(front)|] == Divide(front);
      assert "" + Escape(cell) == Escape(cell);
    }
  }

  lemma {:induction false} DivideFirst(cell: string)
    ensures Divide(Escape(cell)) == [Escape(cell)]
  {
    EscapeEscapes(cell);
    DivideText("", Escape(cell));
    assert "" + Escape(cell) == Escape(cell);
  }

  /** Some cell other than the last ends in a backslash. */
  predicate InnerBackslash(cells: seq<string>) {
    exists p :: 0 <= p < |cells| - 1 && EndsWith(cells[p], BACKSLASH)
  }

  lemma {:induction false} InnerBackslashStep(cells: seq<string>)
    requires |cells| > 1
    ensures InnerBackslash(cells) <==>
            InnerBackslash(cells[..|cells| - 1]) || EndsWith(cells[|cells| - 2], BACKSLASH)
  {
    var rest := cells[..|cells| - 1];
    if InnerBackslash(rest) {
      var p :| 0 <= p < |rest| - 1 && EndsWith(rest[p], BACKSLASH);
      assert EndsWith(cells[p], BACKSLASH);
    }
    if InnerBackslash(cells) {
      var p :| 0 <= p < |cells| - 1 && EndsWith(cells[p], BACKSLASH);
      assert p < |rest| - 1 ==> EndsWith(rest[p], BACKSLASH);
    }
  }

  lemma {:induction false} DivideLonger(cells: seq<string>)
    requires |cells| > 1
    ensures var rest, cell := cells[..|cells| - 1], cells[|cells| - 1];
            Divide(Body(cells)) ==
            if EndsWith(cells[|cells| - 2], BACKSLASH)
            then Glue(Divide(Body(rest)), [PIPE] + Escape(cell)) else Divide(Body(rest)) + [Escape(cell)]
  {
    var rest := cells[..|cells| - 1];
    BodyEnd(rest);
    DivideCell(Body(rest), cells[|cells| - 1]);
  }

  /** Printed cells divide into their escaped texts, unless an inner one ends in a backslash: then pieces are lost. */
  lemma {:induction false} DivideBody(cells: seq<string>)
    requires cells != []
    ensures !InnerBackslash(cells) ==> Divide(Body(cells)) == Escaped(cells)
    ensures |Divide(Body(cells))| <= |cells|
    ensures InnerBackslash(cells) ==> |Divide(Body(cells))| < |cells|
  {
    if |cells| == 1 {
      DivideFirst(cells[0]);
      assert Escaped(cells) == [] + [Escape(cells[0])];
    } else {
      DivideBody(cells[..|cells| - 1]);
      InnerBackslashStep(cells);
      DivideLonger(cells);
    }
  }

  lemma {:induction false} TrimKeepsEnd(s: string)
    requires s != "" && !IsSpace(s[|s| - 1])
    ensures Trim(s) != "" && Trim(s)[|Trim(s)| - 1] == s[|s| - 1]
  {
    if IsSpace(s[0]) {
      TrimKeepsEnd(s[1..]);
    }
  }

  lemma {:induction false} UnescapeTail(x: string)
    ensures Unescape(x + [BACKSLASH, PIPE]) == Unescape(x) + [PIPE]
  {
    var all := x + [BACKSLASH, PIPE];
    if x == "" {
      assert all[2..] == "";
    } else if |x| >= 2 && x[0] == BACKSLASH && x[1] == PIPE {
      UnescapeTail(x[2..]);
      assert all[2..] == x[2..] + [BACKSLASH, PIPE];
    } else {
      UnescapeTail(x[1..]);
      assert all[1..] == x[1..] + [BACKSLASH, PIPE];
      assert |all| >= 2 && all[0] == x[0] && (|x| >= 2 ==> all[1] == x[1]);
    }
  }

  lemma {:induction false} InnerOfPrinted(cells: seq<string>)
    requires cells != []
    ensures Inner(PrintRow(cells)) ==
            if EndsWith(cells[|cells| - 1], BACKSLASH) then Body(cells) + [PIPE] else Body(cells)
  {
    var row := PrintRow(cells);
    TrimKeepsTrimmed(row);
    BodyEnd(cells);
    assert row[1..] == Body(cells) + [PIPE];
    assert row[1..][..|Body(cells)|] == Body(cells);
  }

  lemma {:induction false} CellsOfEscaped(cells: seq<string>)
    ensures CellsOf(Escaped(cells)) == Trimmed(cells)
  {
    if cells != [] {
      var last := |cells| - 1;
      CellsOfEscaped(cells[..last]);
      UnescapeUndoesEscape(cells[last]);
      assert Escaped(cells)[..last] == Escaped(cells[..last]);
    }
  }

  lemma {:induction false} LastCellOf(pieces: seq<string>)
    requires pieces != []
    ensures CellsOf(pieces)[|pieces| - 1] == Trim(Unescape(pieces[|pieces| - 1]))
  {
  }

  /** A cell text ending in a backslash, read together with a pipe after it, ends in that pipe. */
  lemma {:induction false} SpoiltCell(cell: string)
    requires EndsWith(cell, BACKSLASH)
    ensures EndsWith(Trim(Unescape(Escape(cell) + [PIPE])), PIPE) && EndsWith(Trim(cell), BACKSLASH)
  {
    var text := Escape(cell);
    EscapeEscapes(cell);
    UnescapeSpoilt(text);
    PipeStaysLast(Unescape(text[..|text| - 1]));
    BackslashStaysLast(cell);
  }

  lemma {:induction false} UnescapeSpoilt(text: string)
    requires EndsWith(text, BACKSLASH)
    ensures Unescape(text + [PIPE]) == Unescape(text[..|text| - 1]) + [PIPE]
  {
    var x := text[..|text| - 1];
    assert text + [PIPE] == x + [BACKSLASH, PIPE];
    UnescapeTail(x);
  }

  lemma {:induction false} PipeStaysLast(s: string)
    ensures EndsWith(Trim(s + [PIPE]), PIPE)
  {
    TrimKeepsEnd(s + [PIPE]);
  }

  lemma {:induction false} BackslashStaysLast(s: string)
    requires EndsWith(s, BACKSLASH)
    ensures EndsWith(Trim(s), BACKSLASH)
  {
    TrimKeepsEnd(s);
  }

  lemma {:induction false} DivideSpoilt(cells: seq<string>)
    requires cells != [] && EndsWith(cells[|cells| - 1], BACKSLASH)
    ensures Divide(Inner(PrintRow(cells))) == Glue(Divide(Body(cells)), [PIPE])
  {
    InnerOfPrinted(cells);
    BodyEnd(cells);
    assert (Body(cells) + [PIPE])[..|Body(cells)|] == Body(cells);
  }

  lemma {:induction false} LastTexts(cells: seq<string>)
    requires cells != []
    ensures Escaped(cells)[|cells| - 1] == Escape(cells[|cells| - 1]) && Trimmed(cells)[|cells| - 1] == Trim(cells[|cells| - 1])
  {
  }

  /** Cells read from pieces whose last one is spoilt are not the trimmed cells. */
  lemma {:induction false} SpoiltPieces(cells: seq<string>, pieces: seq<string>)
    requires cells != [] && |pieces| == |cells| && EndsWith(cells[|cells| - 1], BACKSLASH)
    requires pieces[|cells| - 1] == Escape(cells[|cells| - 1]) + [PIPE]
    ensures CellsOf(pieces) != Trimmed(cells)
  {
    LastCellOf(pieces);
    LastTexts(cells);
    SpoiltCell(cells[|cells| - 1]);
  }

  /** A last cell ending in a backslash takes the closing pipe for its own. */
  lemma {:induction false} LastBackslashSpoils(cells: seq<string>)
    requires cells != [] && EndsWith(cells[|cells| - 1], BACKSLASH) && !InnerBackslash(cells)
    ensures Cells(PrintRow(cells)) != Trimmed(cells)
  {
    DivideSpoilt(cells);
    DivideBody(cells);
    LastTexts(cells);
    SpoiltPieces(cells, Glue(Escaped(cells), [PIPE]));
  }

  /** An inner cell ending in a backslash loses a cell. */
  lemma {:induction false} InnerBackslashSpoils(cells: seq<string>)
    requires cells != [] && InnerBackslash(cells)
    ensures |Cells(PrintRow(cells))| < |cells|
  {
    DivideBody(cells);
    if EndsWith(cells[|cells| - 1], BACKSLASH) {
      DivideSpoilt(cells);
    } else {
      InnerOfPrinted(cells);
    }
  }

  predicate NoneEndsInBackslash(cells: seq<string>) {
    forall p :: 0 <= p < |cells| ==> !EndsWith(cells[p], BACKSLASH)
  }

  /** Printing cells with outer pipes and `\|` escapes and splitting the row gives them back, trimmed, exactly when no cell ends in a backslash. */
  lemma {:induction false} SplitUndoesPrint(cells: seq<string>)
    requires cells != []
    ensures Cells(PrintRow(cells)) == Trimmed(cells) <==> NoneEndsInBackslash(cells)
  {
    var last := cells[|cells| - 1];
    DivideBody(cells);
    if InnerBackslash(cells) {
      InnerBackslashSpoils(cells);
    } else if EndsWith(last, BACKSLASH) {
      LastBackslashSpoils(cells);
    } else {
      InnerOfPrinted(cells);
      CellsOfEscaped(cells);
      assert forall p :: 0 <= p < |cells| ==> !EndsWith(cells[p], BACKSLASH);
    }
  }

  lemma {:induction false} TrimmedKeepsTrimmed(cells: seq<string>)
    requires forall p :: 0 <= p < |cells| ==> IsTrimmed(cells[p])
    ensures Trimmed(cells) == cells
  {
    if cells != [] {
      var last := |cells| - 1;
      TrimmedKeepsTrimmed(cells[..last]);
      TrimKeepsTrimmed(cells[last]);
      assert cells == cells[..last] + [cells[last]];
    }
  }

  /** Trimmed cells with no backslash at an end come back as they were. */
  lemma {:induction false} SplitGivesCellsBack(cells: seq<string>)
    requires cells != [] && forall p :: 0 <= p < |cells| ==> IsTrimmed(cells[p]) && !EndsWith(cells[p], BACKSLASH)
    ensures Cells(PrintRow(cells)) == cells
  {
    SplitUndoesPrint(cells);
    TrimmedKeepsTrimmed(cells);
  }

  /** Splits a table row into cells. A line that prints some cells, whatever white space around it, gives them trimmed unless one ends in a backslash. */
  method SplitRow(line: string) returns (cells: seq<string>)
    ensures cells == Cells(line)
    ensures forall printed: seq<string> {:trigger PrintRow(printed)} :: printed != [] && Trim(line) == PrintRow(printed) ==>
              (cells == Trimmed(printed) <==> NoneEndsInBackslash(printed))
  {
    var row := Trim(line);
    if row != "" && row[0] == PIPE {
      row := row[1..];
    }
    if EndsWithBarePipe(row) {
      row := row[..|row| - 1];
    }
    cells := CellsOf(Divide(row));
    PrintedLineIsSplit(line);
  }

  lemma {:induction false} PrintedLineIsSplit(line: string)
    ensures forall printed: seq<string> {:trigger PrintRow(printed)} :: printed != [] && Trim(line) == PrintRow(printed) ==>
              (Cells(line) == Trimmed(printed) <==> NoneEndsInBackslash(printed))
  {
    forall printed: seq<string> | printed != [] && Trim(line) == PrintRow(printed)
      ensures Cells(line) == Trimmed(printed) <==> NoneEndsInBackslash(printed)
    {
      SameInner(line, printed);
      SplitUndoesPrint(printed);
    }
  }

  lemma {:induction false} SameInner(line: string, printed: seq<string>)
    requires printed != [] && Trim(line) == PrintRow(printed)
    ensures Cells(line) == Cells(PrintRow(printed))
  {
    TrimKeepsTrimmed(PrintRow(printed));
  }

  /** The one cell `a\` is printed `|a\|`, whose closing pipe reads as escaped: the cell does not come back. */
  lemma {:induction false} TrailingBackslashIsLost()
    ensures PrintRow(["a\\"]) == "|a\\|" && Trimmed(["a\\"]) == ["a\\"] && Cells("|a\\|") != ["a\\"]
  {
    TrimKeepsTrimmed("a\\");
    SplitUndoesPrint(["a\\"]);
    assert EndsWith(["a\\"][0], BACKSLASH);
  }
}
