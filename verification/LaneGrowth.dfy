// Where grouping puts each row, by position, and how the grouped view grows with the log.
module LaneGrowth {
  import opened Wrappers
  import opened LogRows
  import opened LaneGroups
  import opened LaneLaws
  import LogStream
  import LogLaws

  // ---- positions ----

  /** The positions from `from` up to `k` whose row is of a lane, in order. */
  function LanePositions(rows: seq<Row>, id: string, from: nat, k: nat): seq<nat>
    requires k <= |rows|
    decreases k
  {
    if k <= from then []
    else if LaneOf(rows[k - 1]) == Some(id) then LanePositions(rows, id, from, k - 1) + [k - 1]
    else LanePositions(rows, id, from, k - 1)
  }

  ghost predicate Ascending(s: seq<nat>) {
    forall p, q :: 0 <= p < q < |s| ==> s[p] < s[q]
  }

  lemma {:induction false} OneMorePosition(at: seq<nat>, last: nat)
    requires Ascending(at) && forall p :: 0 <= p < |at| ==> at[p] < last
    ensures Ascending(at + [last])
    ensures forall j: nat :: j in at + [last] <==> j in at || j == last
  {
  }

  /** The positions of a lane are ascending, and all those of its rows. */
  lemma {:induction false} PositionsAreTheLanes(rows: seq<Row>, id: string, from: nat, k: nat)
    requires k <= |rows|
    ensures var at := LanePositions(rows, id, from, k);
            && Ascending(at) && (forall p :: 0 <= p < |at| ==> at[p] < k)
            && (forall j: nat :: j in at <==> from <= j < k && LaneOf(rows[j]) == Some(id))
    decreases k
  {
    if k > from {
      PositionsAreTheLanes(rows, id, from, k - 1);
      OneMorePosition(LanePositions(rows, id, from, k - 1), k - 1);
    }
  }

  /** The rows at some positions, in their order. */
  function RowsAt(rows: seq<Row>, at: seq<nat>): seq<Row> {
    if at == [] then []
    else
      var rest, last := RowsAt(rows, at[..|at| - 1]), at[|at| - 1];
      if last < |rows| then rest + [rows[last]] else rest
  }

  lemma {:induction false} RowsAtPush(rows: seq<Row>, at: seq<nat>, last: nat)
    requires last < |rows|
    ensures RowsAt(rows, at + [last]) == RowsAt(rows, at) + [rows[last]]
  {
    assert (at + [last])[..|at|] == at;
  }

  /** A block's rows are those at its lane's positions. */
  lemma {:induction false} BlockRowsAreInPlace(rows: seq<Row>, id: string, from: nat, k: nat)
    requires k <= |rows|
    ensures LaneRows(rows, id, from, k) == RowsAt(rows, LanePositions(rows, id, from, k))
    decreases k
  {
    if k <= from {
      assert LaneRows(rows, id, from, k) == [] && LanePositions(rows, id, from, k) == [];
    } else {
      BlockRowsAreInPlace(rows, id, from, k - 1);
      var at := LanePositions(rows, id, from, k - 1);
      RowsAtPush(rows, at, k - 1);
      assert LanePositions(rows, id, from, k) == if LaneOf(rows[k - 1]) == Some(id) then at + [k - 1] else at;
    }
  }

  /** The heads are the rows no earlier one took in, in order. */
  lemma {:induction false} HeadsAreInPlace(rows: seq<Row>, k: nat)
    requires k <= |rows|
    ensures var heads := Heads(rows, k);
            && Ascending(heads) && (forall p :: 0 <= p < |heads| ==> heads[p] < k)
            && (forall j: nat :: j in heads <==> j < k && !Joins(rows, j))
  {
    if k > 0 {
      HeadsAreInPlace(rows, k - 1);
      OneMorePosition(Heads(rows, k - 1), k - 1);
    }
  }

  /** The block of the q-th head holds row `j`: the head opened its lane, earlier. */
  predicate HoldsRow(rows: seq<Row>, heads: seq<nat>, q: nat, j: nat) {
    && q < |heads| && j < |rows| && heads[q] < j && Opens(rows[heads[q]])
    && LaneOf(rows[heads[q]]) == LaneOf(rows[j])
  }

  /** Every row stands in one place: on its own as a head, or in the block of exactly one head. */
  lemma {:induction false} RowStandsOnce(rows: seq<Row>, j: nat)
    requires j < |rows|
    ensures var heads := Heads(rows, |rows|);
            && (j in heads <==> !exists q: nat :: HoldsRow(rows, heads, q, j))
            && (forall p: nat, q: nat :: HoldsRow(rows, heads, p, j) && HoldsRow(rows, heads, q, j) ==> p == q)
  {
    var heads := Heads(rows, |rows|);
    HeadsAreInPlace(rows, |rows|);
    HeadsAreGood(rows, |rows|);
    if Joins(rows, j) {
      var i :| 0 <= i < j && Opens(rows[i]) && LaneOf(rows[i]) == LaneOf(rows[j]);
      OpenedByHead(rows, i, |rows|);
      var q :| 0 <= q < |heads| && heads[q] <= i && Opens(rows[heads[q]]) && LaneOf(rows[heads[q]]) == LaneOf(rows[i]);
      assert HoldsRow(rows, heads, q, j);
    } else if q: nat :| HoldsRow(rows, heads, q, j) {
      assert Joins(rows, j);
    }
    forall p: nat, q: nat | HoldsRow(rows, heads, p, j) && HoldsRow(rows, heads, q, j)
      ensures p == q
    {
      assert OpensAt(rows, heads, p) && OpensAt(rows, heads, q);
    }
  }

  // ---- growth ----

  /** The longer list starts with rows of the same lanes. */
  ghost predicate SameLanes(rows: seq<Row>, grown: seq<Row>) {
    && |rows| <= |grown|
    && forall j {:trigger rows[j]} {:trigger grown[j]} :: 0 <= j < |rows| ==>
         rows[j].key == grown[j].key && LaneOf(rows[j]) == LaneOf(grown[j]) && Opens(rows[j]) == Opens(grown[j])
  }

  lemma {:induction false} JoinsStays(rows: seq<Row>, grown: seq<Row>, i: nat)
    requires SameLanes(rows, grown) && i < |rows|
    ensures Joins(rows, i) == Joins(grown, i)
  {
    if Joins(rows, i) {
      var j :| 0 <= j < i && Opens(rows[j]) && LaneOf(rows[j]) == LaneOf(rows[i]);
      assert Opens(grown[j]);
    }
    if Joins(grown, i) {
      var j :| 0 <= j < i && Opens(grown[j]) && LaneOf(grown[j]) == LaneOf(grown[i]);
      assert Opens(rows[j]);
    }
  }

  lemma {:induction false} HeadsStay(rows: seq<Row>, grown: seq<Row>, k: nat)
    requires SameLanes(rows, grown) && k <= |rows|
    ensures Heads(grown, k) == Heads(rows, k)
  {
    if k > 0 {
      JoinsStays(rows, grown, k - 1);
      HeadsStay(rows, grown, k - 1);
    }
  }

  lemma {:induction false} HeadsGrow(rows: seq<Row>, k: nat, m: nat)
    requires k <= m <= |rows|
    ensures Heads(rows, k) <= Heads(rows, m)
    decreases m
  {
    if k < m {
      HeadsGrow(rows, k, m - 1);
    }
  }

  lemma {:induction false} PositionsStay(rows: seq<Row>, grown: seq<Row>, id: string, from: nat, k: nat)
    requires SameLanes(rows, grown) && k <= |rows|
    ensures LanePositions(grown, id, from, k) == LanePositions(rows, id, from, k)
    decreases k
  {
    if k > from {
      assert LaneOf(rows[k - 1]) == LaneOf(grown[k - 1]);
      PositionsStay(rows, grown, id, from, k - 1);
    }
  }

  lemma {:induction false} PositionsGrow(rows: seq<Row>, id: string, from: nat, k: nat, m: nat)
    requires k <= m <= |rows|
    ensures LanePositions(rows, id, from, k) <= LanePositions(rows, id, from, m)
    decreases m
  {
    if k < m {
      PositionsGrow(rows, id, from, k, m - 1);
    }
  }

  /** Rows that only gain rows group into a view that only grows: the old items come first, in place and under their keys,
      and each old block holds its old rows first. */
  ghost predicate ViewGrows(rows: seq<Row>, grown: seq<Row>) {
    && SameLanes(rows, grown)
    && Heads(rows, |rows|) <= Heads(grown, |grown|)
    && forall id: string, from: nat :: LanePositions(rows, id, from, |rows|) <= LanePositions(grown, id, from, |grown|)
  }

  lemma {:induction false} GroupedViewGrows(rows: seq<Row>, grown: seq<Row>)
    requires SameLanes(rows, grown)
    ensures ViewGrows(rows, grown)
  {
    HeadsStay(rows, grown, |rows|);
    HeadsGrow(grown, |rows|, |grown|);
    forall id: string, from: nat
      ensures LanePositions(rows, id, from, |rows|) <= LanePositions(grown, id, from, |grown|)
    {
      PositionsStay(rows, grown, id, from, |rows|);
      PositionsGrow(grown, id, from, |rows|, |grown|);
    }
  }

  // ---- the log's own rows ----

  /** The lane of a line's row is that of its event; a composed line has none. */
  lemma {:induction false} LaneOfLine(events: seq<LogRows.Event>, ctx: Context, line: LogStream.Line)
    requires LogStream.Fits(events, ctx, line)
    ensures var row := LogStream.RowOfLine(events, ctx, line);
            && row.key == LogStream.KeyOf(events, ctx, line)
            && row.event.source.laneId == (if line.Own? then events[line.index].laneId else None)
            && (line.Own? ==> row.event.source.kind == events[line.index].kind)
  {
  }

  /** While the stream runs, the grouped view only grows exactly when what is appended loses no line of the log. */
  lemma {:induction false} GroupedLogGrows(events: seq<Event>, more: seq<Event>, ctx: Context, rows: seq<Row>, grown: seq<Row>)
    requires !ctx.ended && LogStream.IsFolded(events, ctx, rows) && LogStream.IsFolded(events + more, ctx, grown)
    ensures ViewGrows(rows, grown) <==> !LogLaws.LosesPhase(events, more) && !LogLaws.LosesGate(events, more, ctx)
  {
    LogLaws.LogGrows(events, more, ctx);
    LogLaws.KeysStayPut(events, more, ctx);
    if !LogLaws.LosesPhase(events, more) && !LogLaws.LosesGate(events, more, ctx) {
      forall j | 0 <= j < |rows|
        ensures rows[j].key == grown[j].key && LaneOf(rows[j]) == LaneOf(grown[j]) && Opens(rows[j]) == Opens(grown[j])
      {
        RowKeepsLane(events, more, ctx, rows, grown, j);
      }
      GroupedViewGrows(rows, grown);
    } else if SameLanes(rows, grown) {
      SameLanesKeepKeys(events, more, ctx, rows, grown);
    }
  }

  lemma {:induction false} SameLanesKeepKeys(events: seq<Event>, more: seq<Event>, ctx: Context, rows: seq<Row>, grown: seq<Row>)
    requires LogStream.IsFolded(events, ctx, rows) && LogStream.IsFolded(events + more, ctx, grown) && SameLanes(rows, grown)
    ensures LogLaws.KeepsKeys(events, more, ctx)
  {
    var lines, later := LogStream.StreamLines(events, ctx), LogStream.StreamLines(events + more, ctx);
    forall p | 0 <= p < |lines|
      ensures LogStream.Fits(events, ctx, lines[p]) && LogStream.Fits(events + more, ctx, later[p])
      ensures LogStream.KeyOf(events + more, ctx, later[p]) == LogStream.KeyOf(events, ctx, lines[p])
    {
      assert rows[p].key == grown[p].key;
      LaneOfLine(events, ctx, lines[p]);
      LaneOfLine(events + more, ctx, later[p]);
    }
  }

  lemma {:induction false} RowKeepsLane(events: seq<Event>, more: seq<Event>, ctx: Context, rows: seq<Row>, grown: seq<Row>, j: nat)
    requires !ctx.ended && LogStream.IsFolded(events, ctx, rows) && LogStream.IsFolded(events + more, ctx, grown) && j < |rows|
    requires LogStream.StreamLines(events, ctx) <= LogStream.StreamLines(events + more, ctx)
    ensures j < |grown| && rows[j].key == grown[j].key && LaneOf(rows[j]) == LaneOf(grown[j]) && Opens(rows[j]) == Opens(grown[j])
  {
    var line := LogStream.StreamLines(events, ctx)[j];
    assert LogStream.StreamLines(events + more, ctx)[j] == line;
    assert LogStream.Fits(events, ctx, line) && LogStream.Fits(events + more, ctx, line);
    LaneOfLine(events, ctx, line);
    LaneOfLine(events + more, ctx, line);
    LogLaws.LineKept(events, more, ctx, j);
    if line.Own? {
      assert (events + more)[line.index] == events[line.index];
    }
  }
}
