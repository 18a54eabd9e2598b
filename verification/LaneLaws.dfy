// Grouping loses and repeats no row, opens one block per lane and keeps the keys of the log apart.
module LaneLaws {
  import opened Wrappers
  import opened LogRows
  import opened LaneGroups
  import LogStream
  import LogLaws

  function RowsIn(item: Item): seq<Row> {
    match item
    case Flat(row) => [row]
    case Block(_, head, rows, _, _, _) => [head] + rows
  }

  /** The rows the head at `i` shows among the first `k` rows. */
  function ShownAt(rows: seq<Row>, i: nat, k: nat): seq<Row>
    requires i < |rows| && k <= |rows|
  {
    [rows[i]] + if Opens(rows[i]) then LaneRows(rows, LaneOf(rows[i]).value, i + 1, k) else []
  }

  lemma {:induction false} ItemShows(rows: seq<Row>, i: nat, ended: bool)
    requires i < |rows|
    ensures RowsIn(ItemAt(rows, i, ended)) == ShownAt(rows, i, |rows|)
  {
  }

  /** How often a value stands in a sequence. */
  function Count<T(==)>(s: seq<T>, x: T): nat {
    if s == [] then 0 else Count(s[..|s| - 1], x) + One(s[|s| - 1] == x)
  }

  function One(b: bool): nat {
    if b then 1 else 0
  }

  lemma {:induction false} CountPush<T>(s: seq<T>, last: T, x: T)
    ensures Count(s + [last], x) == Count(s, x) + One(last == x)
  {
    assert (s + [last])[..|s|] == s;
  }

  /** How often the first `n` of these heads show a row among the first `k`. */
  function Copies(rows: seq<Row>, heads: seq<nat>, n: nat, k: nat, x: Row): nat
    requires n <= |heads| && k <= |rows| && forall q :: 0 <= q < |heads| ==> heads[q] < |rows|
  {
    if n == 0 then 0 else Copies(rows, heads, n - 1, k, x) + Count(ShownAt(rows, heads[n - 1], k), x)
  }

  /** One of the first `n` of these heads opened the lane of row `k`. */
  predicate Takes(rows: seq<Row>, heads: seq<nat>, n: nat, k: nat)
    requires n <= |heads| && k < |rows| && forall q :: 0 <= q < |heads| ==> heads[q] < |rows|
  {
    exists q :: 0 <= q < n && TakesAt(rows, heads[q], k)
  }

  predicate TakesAt(rows: seq<Row>, i: nat, k: nat)
    requires i < |rows| && k < |rows|
  {
    Opens(rows[i]) && LaneOf(rows[i]) == LaneOf(rows[k])
  }

  /** Heads of the first `k` rows, no two of them opening one lane. */
  ghost predicate GoodHeads(rows: seq<Row>, heads: seq<nat>, k: nat) {
    && k <= |rows|
    && (forall q :: 0 <= q < |heads| ==> heads[q] < k)
    && OneLaneEach(rows, heads)
  }

  ghost predicate OneLaneEach(rows: seq<Row>, heads: seq<nat>)
    requires forall q :: 0 <= q < |heads| ==> heads[q] < |rows|
  {
    forall p, q {:trigger OpensAt(rows, heads, p), OpensAt(rows, heads, q)} ::
      0 <= p < q < |heads| && OpensAt(rows, heads, p) && OpensAt(rows, heads, q) ==> LaneOf(rows[heads[p]]) != LaneOf(rows[heads[q]])
  }

  ghost predicate OpensAt(rows: seq<Row>, heads: seq<nat>, q: nat)
    requires q < |heads| && heads[q] < |rows|
  {
    Opens(rows[heads[q]])
  }

  lemma {:induction false} HeadsAreGood(rows: seq<Row>, k: nat)
    requires k <= |rows|
    ensures GoodHeads(rows, Heads(rows, k), k)
  {
    if k > 0 {
      HeadsAreGood(rows, k - 1);
      if !Joins(rows, k - 1) {
        GoodPush(rows, Heads(rows, k - 1), k - 1);
      }
    }
  }

  lemma {:induction false} GoodPush(rows: seq<Row>, heads: seq<nat>, k: nat)
    requires k < |rows| && GoodHeads(rows, heads, k) && !Joins(rows, k)
    ensures GoodHeads(rows, heads + [k], k + 1)
  {
    var grown := heads + [k];
    forall p, q | 0 <= p < q < |grown| && OpensAt(rows, grown, p) && OpensAt(rows, grown, q)
      ensures LaneOf(rows[grown[p]]) != LaneOf(rows[grown[q]])
    {
      if q < |heads| {
        assert OpensAt(rows, heads, p) && OpensAt(rows, heads, q);
      }
    }
  }

  lemma {:induction false} ShownStep(rows: seq<Row>, i: nat, k: nat, x: Row)
    requires i < k < |rows|
    ensures Count(ShownAt(rows, i, k + 1), x) == Count(ShownAt(rows, i, k), x) + One(TakesAt(rows, i, k) && rows[k] == x)
  {
    var before := ShownAt(rows, i, k);
    if TakesAt(rows, i, k) {
      assert ShownAt(rows, i, k + 1) == before + [rows[k]];
      CountPush(before, rows[k], x);
    } else {
      assert ShownAt(rows, i, k + 1) == before;
    }
  }

  lemma {:induction false} CopiesStep(rows: seq<Row>, heads: seq<nat>, n: nat, k: nat, x: Row)
    requires k < |rows| && GoodHeads(rows, heads, k) && n <= |heads|
    ensures Copies(rows, heads, n, k + 1, x) == Copies(rows, heads, n, k, x) + One(Takes(rows, heads, n, k) && rows[k] == x)
  {
    if n > 0 {
      CopiesStep(rows, heads, n - 1, k, x);
      ShownStep(rows, heads[n - 1], k, x);
      TakesLast(rows, heads, n, k, rows[k] == x);
    }
  }

  /** At most one head takes a row. */
  lemma {:induction false} TakesLast(rows: seq<Row>, heads: seq<nat>, n: nat, k: nat, shown: bool)
    requires k < |rows| && GoodHeads(rows, heads, k) && 0 < n <= |heads|
    ensures One(Takes(rows, heads, n, k) && shown) == One(Takes(rows, heads, n - 1, k) && shown) + One(TakesAt(rows, heads[n - 1], k) && shown)
  {
    if Takes(rows, heads, n - 1, k) {
      var q :| 0 <= q < n - 1 && TakesAt(rows, heads[q], k);
      assert OpensAt(rows, heads, q);
      assert TakesAt(rows, heads[n - 1], k) ==> OpensAt(rows, heads, n - 1);
    }
  }

  /** The first row that opens a lane is a head, so a row that joins a lane is taken by a head. */
  lemma {:induction false} OpenedByHead(rows: seq<Row>, j: nat, k: nat)
    requires j < k <= |rows| && Opens(rows[j])
    ensures exists q :: 0 <= q < |Heads(rows, k)| && Heads(rows, k)[q] <= j && Opens(rows[Heads(rows, k)[q]]) && LaneOf(rows[Heads(rows, k)[q]]) == LaneOf(rows[j])
    decreases j
  {
    HeadsAreGood(rows, k);
    if Joins(rows, j) {
      var i :| 0 <= i < j && Opens(rows[i]) && LaneOf(rows[i]) == LaneOf(rows[j]);
      OpenedByHead(rows, i, k);
    } else {
      HeadIsListed(rows, j, k);
    }
  }

  lemma {:induction false} HeadIsListed(rows: seq<Row>, j: nat, k: nat)
    requires j < k <= |rows| && !Joins(rows, j)
    ensures exists q :: 0 <= q < |Heads(rows, k)| && Heads(rows, k)[q] == j
  {
    if j == k - 1 {
      assert Heads(rows, k)[|Heads(rows, k)| - 1] == j;
    } else {
      HeadIsListed(rows, j, k - 1);
      var q :| 0 <= q < |Heads(rows, k - 1)| && Heads(rows, k - 1)[q] == j;
      assert Heads(rows, k)[q] == j;
    }
  }

  lemma {:induction false} TakesWhenJoins(rows: seq<Row>, k: nat)
    requires k < |rows|
    ensures GoodHeads(rows, Heads(rows, k), k)
    ensures Takes(rows, Heads(rows, k), |Heads(rows, k)|, k) <==> Joins(rows, k)
  {
    HeadsAreGood(rows, k);
    var heads := Heads(rows, k);
    if Joins(rows, k) {
      var j :| 0 <= j < k && Opens(rows[j]) && LaneOf(rows[j]) == LaneOf(rows[k]);
      OpenedByHead(rows, j, k);
      var q :| 0 <= q < |heads| && heads[q] <= j && Opens(rows[heads[q]]) && LaneOf(rows[heads[q]]) == LaneOf(rows[j]);
      assert TakesAt(rows, heads[q], k);
    }
  }

  lemma {:induction false} PrefixCount(rows: seq<Row>, k: nat, x: Row)
    requires k < |rows|
    ensures Count(rows[..k + 1], x) == Count(rows[..k], x) + One(rows[k] == x)
  {
    CountPush(rows[..k], rows[k], x);
    assert rows[..k + 1] == rows[..k] + [rows[k]];
  }

  /** The heads of the first `k` rows show a row as often as those rows hold it. */
  ghost predicate CopiesMatch(rows: seq<Row>, k: nat, x: Row) {
    && k <= |rows|
    && GoodHeads(rows, Heads(rows, k), k)
    && Copies(rows, Heads(rows, k), |Heads(rows, k)|, k, x) == Count(rows[..k], x)
  }

  lemma {:induction false} CopiesMatchNone(rows: seq<Row>, x: Row)
    ensures CopiesMatch(rows, 0, x)
  {
    assert Heads(rows, 0) == [] && rows[..0] == [];
  }

  lemma {:induction false} CopiesMatchNext(rows: seq<Row>, k: nat, x: Row)
    requires k < |rows| && CopiesMatch(rows, k, x)
    ensures CopiesMatch(rows, k + 1, x)
  {
    CopiesOfNext(rows, k, x);
    assert GoodHeads(rows, Heads(rows, k), k);
    PrefixCount(rows, k, x);
  }

  lemma {:induction false} CopiesOfPrefix(rows: seq<Row>, k: nat, x: Row)
    requires k <= |rows|
    ensures CopiesMatch(rows, k, x)
  {
    if k == 0 {
      CopiesMatchNone(rows, x);
    } else {
      CopiesOfPrefix(rows, k - 1, x);
      CopiesMatchNext(rows, k - 1, x);
    }
  }

  lemma {:induction false} CopiesOfNext(rows: seq<Row>, k: nat, x: Row)
    requires k < |rows|
    ensures GoodHeads(rows, Heads(rows, k), k) && GoodHeads(rows, Heads(rows, k + 1), k + 1)
    ensures Copies(rows, Heads(rows, k + 1), |Heads(rows, k + 1)|, k + 1, x)
         == Copies(rows, Heads(rows, k), |Heads(rows, k)|, k, x) + One(rows[k] == x)
  {
    var heads := Heads(rows, k);
    HeadsAreGood(rows, k);
    HeadsAreGood(rows, k + 1);
    TakesWhenJoins(rows, k);
    CopiesStep(rows, heads, |heads|, k, x);
    if !Joins(rows, k) {
      CopiesPush(rows, heads, k, x);
    }
  }

  lemma {:induction false} CopiesPush(rows: seq<Row>, heads: seq<nat>, k: nat, x: Row)
    requires k < |rows| && GoodHeads(rows, heads, k)
    ensures Copies(rows, heads + [k], |heads| + 1, k + 1, x) == Copies(rows, heads, |heads|, k + 1, x) + One(rows[k] == x)
  {
    CopiesStay(rows, heads, heads + [k], |heads|, k + 1, x);
    assert ShownAt(rows, k, k + 1) == [] + [rows[k]];
    CountPush([], rows[k], x);
  }

  /** The first heads show the same whatever heads follow. */
  lemma {:induction false} CopiesStay(rows: seq<Row>, heads: seq<nat>, longer: seq<nat>, n: nat, k: nat, x: Row)
    requires n <= |heads| <= |longer| && k <= |rows| && forall q :: 0 <= q < |longer| ==> longer[q] < |rows|
    requires forall q :: 0 <= q < |heads| ==> longer[q] == heads[q]
    ensures Copies(rows, longer, n, k, x) == Copies(rows, heads, n, k, x)
  {
    if n > 0 {
      CopiesStay(rows, heads, longer, n - 1, k, x);
      assert longer[n - 1] == heads[n - 1];
    }
  }

  /** How often the first `n` items together show a row. */
  function ShownIn(items: seq<Item>, n: nat, x: Row): nat
    requires n <= |items|
  {
    if n == 0 then 0 else ShownIn(items, n - 1, x) + Count(RowsIn(items[n - 1]), x)
  }

  lemma {:induction false} ShownInItems(rows: seq<Row>, heads: seq<nat>, items: seq<Item>, ended: bool, n: nat, x: Row)
    requires n <= |items| == |heads| && forall q :: 0 <= q < |heads| ==> heads[q] < |rows| && items[q] == ItemAt(rows, heads[q], ended)
    ensures ShownIn(items, n, x) == Copies(rows, heads, n, |rows|, x)
  {
    if n > 0 {
      ShownInItems(rows, heads, items, ended, n - 1, x);
      ItemShows(rows, heads[n - 1], ended);
    }
  }

  /** The items of the grouped view, in the order of their heads. */
  ghost predicate AreItems(rows: seq<Row>, items: seq<Item>, ended: bool) {
    && |items| == |Heads(rows, |rows|)|
    && forall q :: 0 <= q < |items| ==> Heads(rows, |rows|)[q] < |rows| && items[q] == ItemAt(rows, Heads(rows, |rows|)[q], ended)
  }

  /** Together the items show every row exactly as often as the log holds it: none lost, none repeated. */
  lemma {:induction false} GroupingKeepsEveryRow(rows: seq<Row>, items: seq<Item>, ended: bool, x: Row)
    requires AreItems(rows, items, ended)
    ensures ShownIn(items, |items|, x) == Count(rows, x)
  {
    var heads := Heads(rows, |rows|);
    CopiesOfPrefix(rows, |rows|, x);
    HeadsAreGood(rows, |rows|);
    ShownInItems(rows, heads, items, ended, |items|, x);
    assert rows[..|rows|] == rows;
  }

  /** No two blocks are of one lane. */
  lemma {:induction false} OneBlockPerLane(rows: seq<Row>, ended: bool, p: nat, q: nat)
    requires p < q < |Heads(rows, |rows|)|
    ensures GoodHeads(rows, Heads(rows, |rows|), |rows|)
    ensures var a, b := ItemAt(rows, Heads(rows, |rows|)[p], ended), ItemAt(rows, Heads(rows, |rows|)[q], ended);
            a.Block? && b.Block? ==> a.laneId != b.laneId
  {
    HeadsAreGood(rows, |rows|);
    var heads := Heads(rows, |rows|);
    assert Opens(rows[heads[p]]) ==> OpensAt(rows, heads, p);
    assert Opens(rows[heads[q]]) ==> OpensAt(rows, heads, q);
  }

  // ---- keys ----

  function KeysOf(rows: seq<Row>): (keys: seq<Key>)
    ensures |keys| == |rows|
  {
    if rows == [] then [] else KeysOf(rows[..|rows| - 1]) + [rows[|rows| - 1].key]
  }

  /** The keys the head at `i` puts on screen: its row's, or its lane's and those of the lane's rows. */
  function KeysAt(rows: seq<Row>, i: nat, k: nat): seq<Key>
    requires i < |rows| && k <= |rows|
  {
    if Opens(rows[i]) then [LaneKey(LaneOf(rows[i]).value)] + KeysOf(LaneRows(rows, LaneOf(rows[i]).value, i + 1, k))
    else [rows[i].key]
  }

  /** How often a key stands in what the first `n` of these heads show of the first `k` rows. */
  function KeyCopies(rows: seq<Row>, heads: seq<nat>, n: nat, k: nat, key: Key): nat
    requires n <= |heads| && k <= |rows| && forall q :: 0 <= q < |heads| ==> heads[q] < |rows|
  {
    if n == 0 then 0 else KeyCopies(rows, heads, n - 1, k, key) + Count(KeysAt(rows, heads[n - 1], k), key)
  }

  lemma {:induction false} KeysAtStep(rows: seq<Row>, i: nat, k: nat)
    requires i < k < |rows|
    ensures KeysAt(rows, i, k + 1) == KeysAt(rows, i, k) + if TakesAt(rows, i, k) then [rows[k].key] else []
  {
    if Opens(rows[i]) {
      var id := LaneOf(rows[i]).value;
      var before, after := LaneRows(rows, id, i + 1, k), LaneRows(rows, id, i + 1, k + 1);
      if TakesAt(rows, i, k) {
        assert after == before + [rows[k]];
        assert after[..|after| - 1] == before;
        assert [LaneKey(id)] + (KeysOf(before) + [rows[k].key]) == [LaneKey(id)] + KeysOf(before) + [rows[k].key];
      } else {
        assert after == before;
      }
    }
  }

  lemma {:induction false} KeysAtGrow(rows: seq<Row>, i: nat, k: nat, key: Key)
    requires i < k < |rows|
    ensures Count(KeysAt(rows, i, k + 1), key) == Count(KeysAt(rows, i, k), key) + One(TakesAt(rows, i, k) && rows[k].key == key)
  {
    KeysAtStep(rows, i, k);
    if TakesAt(rows, i, k) {
      CountPush(KeysAt(rows, i, k), rows[k].key, key);
    } else {
      assert KeysAt(rows, i, k + 1) == KeysAt(rows, i, k);
    }
  }

  lemma {:induction false} KeyCopiesStep(rows: seq<Row>, heads: seq<nat>, n: nat, k: nat, key: Key)
    requires k < |rows| && GoodHeads(rows, heads, k) && n <= |heads|
    ensures KeyCopies(rows, heads, n, k + 1, key) == KeyCopies(rows, heads, n, k, key) + One(Takes(rows, heads, n, k) && rows[k].key == key)
  {
    if n > 0 {
      KeyCopiesStep(rows, heads, n - 1, k, key);
      KeysAtGrow(rows, heads[n - 1], k, key);
      TakesLast(rows, heads, n, k, rows[k].key == key);
    }
  }

  /** The one key a row adds to the grouped view. */
  function NewKey(rows: seq<Row>, k: nat): Key
    requires k < |rows|
  {
    if !Joins(rows, k) && Opens(rows[k]) then LaneKey(LaneOf(rows[k]).value) else rows[k].key
  }

  /** How often a key stands in the grouped view of the first `k` rows. */
  function KeyCount(rows: seq<Row>, k: nat, key: Key): nat
    requires k <= |rows|
  {
    HeadsAreGood(rows, k);
    KeyCopies(rows, Heads(rows, k), |Heads(rows, k)|, k, key)
  }

  lemma {:induction false} KeyCountOfNext(rows: seq<Row>, k: nat, key: Key)
    requires k < |rows|
    ensures KeyCount(rows, k + 1, key) == KeyCount(rows, k, key) + One(NewKey(rows, k) == key)
  {
    var heads := Heads(rows, k);
    HeadsAreGood(rows, k);
    TakesWhenJoins(rows, k);
    KeyCopiesStep(rows, heads, |heads|, k, key);
    if !Joins(rows, k) {
      KeyCopiesPush(rows, heads, k, key);
    }
  }

  lemma {:induction false} KeyCopiesPush(rows: seq<Row>, heads: seq<nat>, k: nat, key: Key)
    requires k < |rows| && GoodHeads(rows, heads, k) && !Joins(rows, k)
    ensures KeyCopies(rows, heads + [k], |heads| + 1, k + 1, key) == KeyCopies(rows, heads, |heads|, k + 1, key) + One(NewKey(rows, k) == key)
  {
    KeyCopiesStay(rows, heads, heads + [k], |heads|, k + 1, key);
    assert KeysAt(rows, k, k + 1) == [] + [NewKey(rows, k)];
    CountPush([], NewKey(rows, k), key);
  }

  lemma {:induction false} KeyCopiesStay(rows: seq<Row>, heads: seq<nat>, longer: seq<nat>, n: nat, k: nat, key: Key)
    requires n <= |heads| <= |longer| && k <= |rows| && forall q :: 0 <= q < |longer| ==> longer[q] < |rows|
    requires forall q :: 0 <= q < |heads| ==> longer[q] == heads[q]
    ensures KeyCopies(rows, longer, n, k, key) == KeyCopies(rows, heads, n, k, key)
  {
    if n > 0 {
      KeyCopiesStay(rows, heads, longer, n - 1, k, key);
      assert longer[n - 1] == heads[n - 1];
    }
  }

  /** How many of the first `k` rows add a key. */
  function Adding(rows: seq<Row>, k: nat, key: Key): nat
    requires k <= |rows|
  {
    if k == 0 then 0 else Adding(rows, k - 1, key) + One(NewKey(rows, k - 1) == key)
  }

  /** A key stands in the grouped view as often as rows add it. */
  lemma {:induction false} KeysAreAdded(rows: seq<Row>, k: nat, key: Key)
    requires k <= |rows|
    ensures KeyCount(rows, k, key) == Adding(rows, k, key)
  {
    if k > 0 {
      KeysAreAdded(rows, k - 1, key);
      KeyCountOfNext(rows, k - 1, key);
    }
  }

  /** At most one row adds a key exactly when no two do. */
  lemma {:induction false} AddedTwice(rows: seq<Row>, k: nat, key: Key)
    requires k <= |rows|
    ensures Adding(rows, k, key) == 0 <==> forall p :: 0 <= p < k ==> NewKey(rows, p) != key
    ensures Adding(rows, k, key) <= 1 <==> forall p, q :: 0 <= p < q < k && NewKey(rows, p) == key ==> NewKey(rows, q) != key
  {
    if k > 0 {
      AddedTwice(rows, k - 1, key);
    }
  }

  ghost predicate DistinctRowKeys(rows: seq<Row>) {
    && (forall p {:trigger KeyAt(rows, p)} :: 0 <= p < |rows| ==> !KeyAt(rows, p).LaneKey?)
    && (forall p, q {:trigger KeyAt(rows, p), KeyAt(rows, q)} :: 0 <= p < q < |rows| ==> KeyAt(rows, p) != KeyAt(rows, q))
  }

  function KeyAt(rows: seq<Row>, p: nat): Key
    requires p < |rows|
  {
    rows[p].key
  }

  /** When the rows' keys are distinct, so are those of the grouped view: lines, blocks and the rows inside blocks. */
  lemma {:induction false} GroupedKeysAreDistinct(rows: seq<Row>, key: Key)
    requires DistinctRowKeys(rows)
    ensures KeyCount(rows, |rows|, key) <= 1
  {
    KeysAreAdded(rows, |rows|, key);
    AddedTwice(rows, |rows|, key);
    forall p, q | 0 <= p < q < |rows| && NewKey(rows, p) == NewKey(rows, q)
      ensures false
    {
      NewKeysDiffer(rows, p, q);
    }
  }

  lemma {:induction false} NewKeysDiffer(rows: seq<Row>, p: nat, q: nat)
    requires DistinctRowKeys(rows) && p < q < |rows|
    ensures NewKey(rows, p) != NewKey(rows, q)
  {
    assert KeyAt(rows, p) == rows[p].key && KeyAt(rows, q) == rows[q].key;
  }

  /** No key stands twice in the grouped view. */
  ghost predicate GroupedApart(rows: seq<Row>) {
    forall key :: KeyCount(rows, |rows|, key) <= 1
  }

  lemma {:induction false} SharedKeyStandsTwice(rows: seq<Row>, p: nat, q: nat)
    requires p < q < |rows| && NewKey(rows, p) == NewKey(rows, q)
    ensures !GroupedApart(rows)
  {
    KeysAreAdded(rows, |rows|, NewKey(rows, p));
    AddedTwice(rows, |rows|, NewKey(rows, p));
  }

  /** Two attempts closed under one number put one key into the grouped view twice. */
  lemma {:induction false} SharedNumberSharesKey(events: seq<Event>, ctx: Context, rows: seq<Row>, g: nat, h: nat)
    requires LogStream.IsFolded(events, ctx, rows) && g < h && LogStream.Boundary(events, g) && LogStream.Boundary(events, h)
    requires LogStream.ClosedNumber(events, ctx, g).Some? && LogStream.ClosedNumber(events, ctx, g) == LogStream.ClosedNumber(events, ctx, h)
    ensures !GroupedApart(rows)
  {
    var p, q := EndPosition(events, ctx, g), EndPosition(events, ctx, h);
    EndAddsItsKey(events, ctx, rows, p);
    EndAddsItsKey(events, ctx, rows, q);
    SharedKeyStandsTwice(rows, if p < q then p else q, if p < q then q else p);
  }

  /** Where the end line of an attempt closed at `hi` stands in the log. */
  ghost function EndPosition(events: seq<Event>, ctx: Context, hi: nat): (p: nat)
    requires LogStream.Boundary(events, hi) && LogStream.ClosedNumber(events, ctx, hi).Some?
    ensures p < |LogStream.StreamLines(events, ctx)| && LogStream.StreamLines(events, ctx)[p] == LogStream.EndOf(hi)
  {
    LogLaws.LogIsComplete(events, ctx, LogStream.EndOf(hi));
    var p: nat :| p < |LogStream.StreamLines(events, ctx)| && LogStream.StreamLines(events, ctx)[p] == LogStream.EndOf(hi);
    p
  }

  lemma {:induction false} EndAddsItsKey(events: seq<Event>, ctx: Context, rows: seq<Row>, p: nat)
    requires LogStream.IsFolded(events, ctx, rows) && p < |LogStream.StreamLines(events, ctx)|
    requires LogStream.StreamLines(events, ctx)[p].EndOf?
    ensures LogStream.Fits(events, ctx, LogStream.StreamLines(events, ctx)[p])
    ensures NewKey(rows, p) == LogStream.KeyOf(events, ctx, LogStream.StreamLines(events, ctx)[p])
  {
  }

  /** The rows of a folded log group under distinct keys exactly when no two closed attempts bear one number. */
  lemma {:induction false} FoldedLogGroupsUnderDistinctKeys(events: seq<Event>, ctx: Context, rows: seq<Row>)
    requires LogStream.IsFolded(events, ctx, rows)
    ensures GroupedApart(rows) <==> LogLaws.DistinctNumbers(events, ctx)
  {
    if LogLaws.DistinctNumbers(events, ctx) {
      FoldedKeysAreDistinct(events, ctx, rows);
      forall key
        ensures KeyCount(rows, |rows|, key) <= 1
      {
        GroupedKeysAreDistinct(rows, key);
      }
    } else {
      var g: nat, h: nat :| LogStream.Boundary(events, g) && LogStream.Boundary(events, h) && g < h
                            && LogStream.ClosedNumber(events, ctx, g).Some?
                            && LogStream.ClosedNumber(events, ctx, g) == LogStream.ClosedNumber(events, ctx, h);
      SharedNumberSharesKey(events, ctx, rows, g, h);
    }
  }

  lemma {:induction false} FoldedKeysAreDistinct(events: seq<Event>, ctx: Context, rows: seq<Row>)
    requires LogStream.IsFolded(events, ctx, rows) && LogLaws.DistinctNumbers(events, ctx)
    ensures DistinctRowKeys(rows)
  {
    var lines := LogStream.StreamLines(events, ctx);
    LogLaws.KeysAreDistinct(events, ctx);
    forall p | 0 <= p < |rows|
      ensures LogStream.Fits(events, ctx, lines[p]) && KeyAt(rows, p) == LogStream.KeyOf(events, ctx, lines[p])
    {
      LogLaws.RowHasKey(events, ctx, lines[p]);
    }
    forall p, q | 0 <= p < q < |rows|
      ensures KeyAt(rows, p) != KeyAt(rows, q)
    {
      assert KeyText(LogStream.KeyOf(events, ctx, lines[p])) != KeyText(LogStream.KeyOf(events, ctx, lines[q]));
    }
  }
}
