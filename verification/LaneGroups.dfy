// Gathering each lane's rows into one block at the lane's opening line (studio/src/lib/log-tree.ts:309-340).
module LaneGroups {
  import opened Wrappers
  import opened LogRows

  predicate Opens(row: Row) {
    row.event.source.kind.LaneOpen? && Truthy(row.event.source.laneId)
  }

  function LaneOf(row: Row): Option<string> {
    if Truthy(row.event.source.laneId) then row.event.source.laneId else None
  }

  predicate EndsLane(row: Row) {
    row.event.source.kind.LaneClose? || row.event.source.kind.LaneOrphan?
  }

  predicate IsTool(row: Row) {
    row.event.source.kind.Tool? || row.event.source.kind.ToolError?
  }

  // ---- what grouping means, position by position ----

  /** An earlier row opened the lane of row `i`, so row `i` goes into that lane's block. */
  predicate Joins(rows: seq<Row>, i: nat)
    requires i < |rows|
  {
    LaneOf(rows[i]).Some? && exists j :: 0 <= j < i && Opens(rows[j]) && LaneOf(rows[j]) == LaneOf(rows[i])
  }

  /** The positions of the rows that stand on their own, in order: flat lines and block heads. */
  function Heads(rows: seq<Row>, k: nat): seq<nat>
    requires k <= |rows|
  {
    if k == 0 then []
    else if Joins(rows, k - 1) then Heads(rows, k - 1)
    else Heads(rows, k - 1) + [k - 1]
  }

  /** The rows of a lane from `from` up to `k`, in order. */
  function LaneRows(rows: seq<Row>, id: string, from: nat, k: nat): seq<Row>
    requires k <= |rows|
    decreases k
  {
    if k <= from then []
    else LaneRows(rows, id, from, k - 1) + if LaneOf(rows[k - 1]) == Some(id) then [rows[k - 1]] else []
  }

  function ToolsOf(rows: seq<Row>): seq<Row> {
    if rows == [] then []
    else ToolsOf(rows[..|rows| - 1]) + if IsTool(rows[|rows| - 1]) then [rows[|rows| - 1]] else []
  }

  predicate AnyEnds(rows: seq<Row>) {
    exists p :: 0 <= p < |rows| && EndsLane(rows[p])
  }

  datatype Item =
    | Flat(row: Row)
    | Block(laneId: string, head: Row, rows: seq<Row>, ended: bool, latest: Option<Row>, tools: nat)

  /** The item the head at position `i` makes: its row alone, or the block of every later row of its lane. */
  function ItemAt(rows: seq<Row>, i: nat, streamEnded: bool): Item
    requires i < |rows|
  {
    if !Opens(rows[i]) then Flat(rows[i])
    else
      var id := LaneOf(rows[i]).value;
      var inside := LaneRows(rows, id, i + 1, |rows|);
      var tools := ToolsOf(inside);
      Block(id, rows[i], inside, AnyEnds(inside) || streamEnded, if tools == [] then None else Some(tools[|tools| - 1]), |tools|)
  }

  // ---- the grouping as it runs ----

  /** A lane's block while it fills. */
  class LaneGroup {
    const laneId: string
    const head: Row
    var rows: seq<Row>
    var ended: bool
    var latest: Option<Row>
    var tools: nat

    constructor (head: Row, laneId: string)
      ensures this.head == head && this.laneId == laneId
      ensures rows == [] && !ended && latest == None && tools == 0
    {
      this.head, this.laneId := head, laneId;
      rows, ended, latest, tools := [], false, None, 0;
    }

    function Value(): Item
      reads this
    {
      Block(laneId, head, rows, ended, latest, tools)
    }

    method Add(row: Row)
      modifies this
      ensures rows == old(rows) + [row] && ended == (old(ended) || EndsLane(row))
      ensures latest == old(latest) && tools == old(tools)
    {
      rows := rows + [row];
      if EndsLane(row) {
        ended := true;
      }
    }

    /** Makes a block that holds all its rows the one of the definition: an ended stream ends it, its tool rows are counted. */
    method Settle(streamEnded: bool)
      modifies this
      ensures rows == old(rows) && ended == (old(ended) || streamEnded)
      ensures var found := ToolsOf(rows);
              latest == (if found == [] then None else Some(found[|found| - 1])) && tools == |found|
    {
      var found := [];
      for p := 0 to |rows|
        invariant rows == old(rows) && ended == old(ended)
        invariant found == ToolsOf(rows[..p])
      {
        assert rows[..p + 1][..p] == rows[..p];
        if IsTool(rows[p]) {
          found := found + [rows[p]];
        }
      }
      assert rows[..|rows|] == rows;
      ended := ended || streamEnded;
      latest := if found == [] then None else Some(found[|found| - 1]);
      tools := |found|;
    }
  }

  datatype Placed = Line(row: Row) | Lane(group: LaneGroup)

  /** The blocks opened so far: each lane's group with the position of its head. */
  ghost predicate GroupsHold(rows: seq<Row>, k: nat, groups: map<string, LaneGroup>, at: map<string, nat>)
    requires k <= |rows|
    reads groups.Values
  {
    && at.Keys == groups.Keys
    && forall id {:trigger groups[id]} {:trigger at[id]} :: id in groups ==> GroupHolds(rows, k, id, groups[id], at[id])
  }

  ghost predicate GroupHolds(rows: seq<Row>, k: nat, id: string, group: LaneGroup, i: nat)
    requires k <= |rows|
    reads group
  {
    && i < k && Opens(rows[i]) && LaneOf(rows[i]) == Some(id)
    && group.laneId == id && group.head == rows[i]
    && group.rows == LaneRows(rows, id, i + 1, k)
    && group.ended == AnyEnds(group.rows)
  }

  ghost predicate OpenLanes(rows: seq<Row>, k: nat, groups: map<string, LaneGroup>)
    requires k <= |rows|
  {
    forall id :: id in groups <==> exists j :: 0 <= j < k && Opens(rows[j]) && LaneOf(rows[j]) == Some(id)
  }

  /** The output so far: a line or a lane's group for every head. */
  ghost predicate OutHolds(rows: seq<Row>, k: nat, out: seq<Placed>, groups: map<string, LaneGroup>, at: map<string, nat>)
    requires k <= |rows|
  {
    && |out| == |Heads(rows, k)|
    && forall q :: 0 <= q < |out| ==> PlacedAt(rows, Heads(rows, k)[q], out[q], groups, at)
  }

  ghost predicate PlacedAt(rows: seq<Row>, i: nat, placed: Placed, groups: map<string, LaneGroup>, at: map<string, nat>) {
    && i < |rows|
    && if Opens(rows[i])
       then var id := LaneOf(rows[i]).value; id in groups && id in at && placed == Lane(groups[id]) && at[id] == i
       else placed == Line(rows[i])
  }

  /** A row of another lane leaves a block as it is. */
  lemma {:induction false} GroupKept(rows: seq<Row>, k: nat, id: string, group: LaneGroup, i: nat)
    requires k < |rows| && GroupHolds(rows, k, id, group, i) && LaneOf(rows[k]) != Some(id)
    ensures GroupHolds(rows, k + 1, id, group, i)
  {
  }

  lemma {:induction false} AnyEndsPush(rows: seq<Row>, row: Row)
    ensures AnyEnds(rows + [row]) <==> AnyEnds(rows) || EndsLane(row)
  {
    if AnyEnds(rows) {
      var p :| 0 <= p < |rows| && EndsLane(rows[p]);
      assert EndsLane((rows + [row])[p]);
    }
    if EndsLane(row) {
      assert EndsLane((rows + [row])[|rows|]);
    }
  }

  lemma {:induction false} JoinsWhenOpen(rows: seq<Row>, k: nat, groups: map<string, LaneGroup>)
    requires k < |rows| && OpenLanes(rows, k, groups)
    ensures Joins(rows, k) <==> LaneOf(rows[k]).Some? && LaneOf(rows[k]).value in groups
  {
  }

  lemma {:induction false} LanesGrow(rows: seq<Row>, k: nat, groups: map<string, LaneGroup>, grown: map<string, LaneGroup>)
    requires k < |rows| && OpenLanes(rows, k, groups)
    requires grown.Keys == groups.Keys + if Opens(rows[k]) then {LaneOf(rows[k]).value} else {}
    ensures OpenLanes(rows, k + 1, grown)
  {
    forall id
      ensures id in grown <==> exists j :: 0 <= j < k + 1 && Opens(rows[j]) && LaneOf(rows[j]) == Some(id)
    {
      assert id in groups <==> exists j :: 0 <= j < k && Opens(rows[j]) && LaneOf(rows[j]) == Some(id);
    }
  }

  /** A lane joined by a row gets it in its block; every other block keeps its rows. */
  method JoinLane(rows: seq<Row>, k: nat, groups: map<string, LaneGroup>, ghost at: map<string, nat>)
    requires k < |rows| && GroupsHold(rows, k, groups, at)
    requires LaneOf(rows[k]).Some? && LaneOf(rows[k]).value in groups
    modifies groups.Values
    ensures GroupsHold(rows, k + 1, groups, at)
  {
    var id := LaneOf(rows[k]).value;
    var group := groups[id];
    assert GroupHolds(rows, k, id, group, at[id]);
    AnyEndsPush(group.rows, rows[k]);
    forall other | other in groups && other != id
      ensures GroupHolds(rows, k, other, groups[other], at[other]) && groups[other] != group
    {
    }
    group.Add(rows[k]);
    forall other | other in groups
      ensures GroupHolds(rows, k + 1, other, groups[other], at[other])
    {
      if other != id {
        assert GroupHolds(rows, k, other, groups[other], at[other]);
        GroupKept(rows, k, other, groups[other], at[other]);
      }
    }
  }

  /** A row that joins no block leaves every block as it is. */
  lemma {:induction false} GroupsKept(rows: seq<Row>, k: nat, groups: map<string, LaneGroup>, at: map<string, nat>)
    requires k < |rows| && GroupsHold(rows, k, groups, at)
    requires LaneOf(rows[k]).None? || LaneOf(rows[k]).value !in groups
    ensures GroupsHold(rows, k + 1, groups, at)
  {
    forall id | id in groups
      ensures GroupHolds(rows, k + 1, id, groups[id], at[id])
    {
      GroupKept(rows, k, id, groups[id], at[id]);
    }
  }

  /** A lane opened by a row gets an empty block. */
  method OpenLane(rows: seq<Row>, k: nat, groups: map<string, LaneGroup>, ghost at: map<string, nat>) returns (group: LaneGroup)
    requires k < |rows| && GroupsHold(rows, k, groups, at)
    requires Opens(rows[k]) && LaneOf(rows[k]).value !in groups
    ensures fresh(group)
    ensures var id := LaneOf(rows[k]).value; GroupsHold(rows, k + 1, groups[id := group], at[id := k])
  {
    var id := LaneOf(rows[k]).value;
    group := new LaneGroup(rows[k], id);
    GroupsKept(rows, k, groups, at);
    assert GroupHolds(rows, k + 1, id, group, k);
  }

  lemma {:induction false} OutKept(rows: seq<Row>, k: nat, out: seq<Placed>, groups: map<string, LaneGroup>, at: map<string, nat>)
    requires k < |rows| && OutHolds(rows, k, out, groups, at) && Joins(rows, k)
    ensures OutHolds(rows, k + 1, out, groups, at)
  {
  }

  lemma {:induction false} OutGrows(rows: seq<Row>, k: nat, out: seq<Placed>, groups: map<string, LaneGroup>, at: map<string, nat>,
                                    placed: Placed, grown: map<string, LaneGroup>, grownAt: map<string, nat>)
    requires k < |rows| && OutHolds(rows, k, out, groups, at) && !Joins(rows, k)
    requires forall id :: id in groups && id in at ==> id in grown && id in grownAt && grown[id] == groups[id] && grownAt[id] == at[id]
    requires PlacedAt(rows, k, placed, grown, grownAt)
    ensures OutHolds(rows, k + 1, out + [placed], grown, grownAt)
  {
    var heads := Heads(rows, k);
    forall q | 0 <= q < |out|
      ensures PlacedAt(rows, heads[q], out[q], grown, grownAt)
    {
      assert PlacedAt(rows, heads[q], out[q], groups, at);
    }
  }

  /** What the loop keeps over the first `k` rows. */
  ghost predicate Grouped(rows: seq<Row>, k: nat, out: seq<Placed>, groups: map<string, LaneGroup>, at: map<string, nat>)
    reads groups.Values
  {
    && k <= |rows|
    && GroupsHold(rows, k, groups, at) && OpenLanes(rows, k, groups)
    && OutHolds(rows, k, out, groups, at)
  }

  /** Places one row: in its lane's block, as the head of a new block, or flat. */
  method PlaceRow(rows: seq<Row>, k: nat, out: seq<Placed>, groups: map<string, LaneGroup>, ghost at: map<string, nat>)
    returns (grownOut: seq<Placed>, grown: map<string, LaneGroup>, ghost grownAt: map<string, nat>)
    requires k < |rows| && Grouped(rows, k, out, groups, at)
    modifies groups.Values
    ensures Grouped(rows, k + 1, grownOut, grown, grownAt)
    ensures forall id :: id in grown ==> (id in groups && grown[id] == groups[id]) || fresh(grown[id])
  {
    var row := rows[k];
    var laneId := LaneOf(row);
    JoinsWhenOpen(rows, k, groups);
    grownOut, grown, grownAt := out, groups, at;
    if laneId.Some? && laneId.value in groups {
      LanesGrow(rows, k, groups, groups);
      OutKept(rows, k, out, groups, at);
      JoinLane(rows, k, groups, at);
    } else if Opens(row) {
      var group := OpenLane(rows, k, groups, at);
      grown, grownAt := groups[laneId.value := group], at[laneId.value := k];
      LanesGrow(rows, k, groups, grown);
      OutGrows(rows, k, out, groups, at, Lane(group), grown, grownAt);
      grownOut := out + [Lane(group)];
    } else {
      LanesGrow(rows, k, groups, groups);
      GroupsKept(rows, k, groups, at);
      OutGrows(rows, k, out, groups, at, Line(row), groups, at);
      grownOut := out + [Line(row)];
    }
  }

  /** Places every row. */
  method PlaceRows(rows: seq<Row>) returns (out: seq<Placed>, groups: map<string, LaneGroup>, ghost at: map<string, nat>)
    ensures Grouped(rows, |rows|, out, groups, at)
    ensures forall id :: id in groups ==> fresh(groups[id])
  {
    out, groups, at := [], map[], map[];
    for k := 0 to |rows|
      invariant Grouped(rows, k, out, groups, at)
      invariant forall id :: id in groups ==> fresh(groups[id])
    {
      out, groups, at := PlaceRow(rows, k, out, groups, at);
    }
  }

  ghost predicate Settled(group: LaneGroup, id: string, rows: seq<Row>, i: nat, streamEnded: bool)
    reads group
  {
    group.laneId == id && i < |rows| && Opens(rows[i]) && group.Value() == ItemAt(rows, i, streamEnded)
  }

  method SettleOne(rows: seq<Row>, ghost id: string, group: LaneGroup, ghost i: nat, streamEnded: bool)
    requires GroupHolds(rows, |rows|, id, group, i)
    modifies group
    ensures Settled(group, id, rows, i, streamEnded)
  {
    group.Settle(streamEnded);
  }

  /** The blocks of the lanes still to settle hold their rows, the others are settled. */
  ghost predicate Settling(rows: seq<Row>, groups: map<string, LaneGroup>, at: map<string, nat>, left: set<string>, streamEnded: bool)
    reads groups.Values
  {
    && at.Keys == groups.Keys
    && (forall id {:trigger groups[id]} :: id in groups && id in left ==> GroupHolds(rows, |rows|, id, groups[id], at[id]))
    && (forall id {:trigger groups[id]} :: id in groups && id !in left ==> Settled(groups[id], id, rows, at[id], streamEnded))
  }

  lemma {:induction false} GroupsApart(rows: seq<Row>, groups: map<string, LaneGroup>, at: map<string, nat>, left: set<string>, streamEnded: bool, id: string)
    requires Settling(rows, groups, at, left, streamEnded) && id in groups
    ensures forall other :: other in groups && other != id ==> groups[other] != groups[id]
  {
    assert groups[id].laneId == id;
    forall other | other in groups && other != id
      ensures groups[other].laneId == other
    {
    }
  }

  method SettleNext(rows: seq<Row>, groups: map<string, LaneGroup>, ghost at: map<string, nat>, left: set<string>, id: string, streamEnded: bool)
    requires Settling(rows, groups, at, left, streamEnded) && id in groups && id in left
    modifies groups[id]
    ensures Settling(rows, groups, at, left - {id}, streamEnded)
  {
    GroupsApart(rows, groups, at, left, streamEnded, id);
    SettleOne(rows, id, groups[id], at[id], streamEnded);
  }

  /** Settles every block, each on its own rows. */
  method SettleAll(rows: seq<Row>, groups: map<string, LaneGroup>, ghost at: map<string, nat>, streamEnded: bool)
    requires GroupsHold(rows, |rows|, groups, at)
    modifies groups.Values
    ensures Settling(rows, groups, at, {}, streamEnded)
  {
    var left := groups.Keys;
    while left != {}
      invariant left <= groups.Keys && Settling(rows, groups, at, left, streamEnded)
    {
      var id :| id in left;
      SettleNext(rows, groups, at, left, id, streamEnded);
      left := left - {id};
    }
  }

  /** The item a placed row or block stands for. */
  ghost function ItemOf(placed: Placed): Item
    reads if placed.Lane? then {placed.group} else {}
  {
    if placed.Lane? then placed.group.Value() else Flat(placed.row)
  }

  /** Gathers each lane whose opening was seen into one block there; every other row stays flat in place. */
  method GroupLanes(rows: seq<Row>, ended: bool) returns (out: seq<Placed>)
    ensures |out| == |Heads(rows, |rows|)|
    ensures forall q :: 0 <= q < |out| ==> Heads(rows, |rows|)[q] < |rows| && ItemOf(out[q]) == ItemAt(rows, Heads(rows, |rows|)[q], ended)
  {
    var groups;
    ghost var at;
    out, groups, at := PlaceRows(rows);
    SettleAll(rows, groups, at, ended);
    forall q | 0 <= q < |out|
      ensures Heads(rows, |rows|)[q] < |rows| && ItemOf(out[q]) == ItemAt(rows, Heads(rows, |rows|)[q], ended)
    {
      assert PlacedAt(rows, Heads(rows, |rows|)[q], out[q], groups, at);
    }
  }
}
