// Token shares of a run's phases and the legend of the largest ones (studio/src/lib/track.ts:76-89).
module Legend {
  import opened Wrappers

  /** A phase with the tokens it spent, None when they are no finite number. */
  datatype Phase = Phase(number: int, name: string, agent: string, tokens: Option<int>, running: bool)

  datatype Entry = Entry(number: int, name: string, agent: string, share: real, running: bool)

  // ---- shares ----

  predicate Spent(phase: Phase) {
    phase.tokens.Some? && phase.tokens.value > 0
  }

  function Spenders(phases: seq<Phase>): seq<Phase> {
    if phases == [] then []
    else if Spent(phases[0]) then [phases[0]] + Spenders(phases[1..]) else Spenders(phases[1..])
  }

  function Tokens(phases: seq<Phase>): nat {
    if phases == [] then 0 else (if Spent(phases[0]) then phases[0].tokens.value else 0) + Tokens(phases[1..])
  }

  function EntriesOf(phases: seq<Phase>, sum: int): seq<Entry>
    requires sum > 0
  {
    if phases == [] then []
    else
      var first := phases[0];
      [Entry(first.number, first.name, first.agent, first.tokens.GetOr(0) as real / sum as real, first.running)]
      + EntriesOf(phases[1..], sum)
  }

  /** The phases that spent tokens, in bar order, each with its share of the total. */
  function ShareEntries(phases: seq<Phase>): seq<Entry> {
    var spent := Spenders(phases);
    if spent == [] then [] else
      SpendersSpend(phases);
      EntriesOf(spent, Tokens(spent))
  }

  lemma {:induction false} SpendersSpend(phases: seq<Phase>)
    ensures Tokens(Spenders(phases)) == Tokens(phases)
    ensures Spenders(phases) != [] <==> Tokens(phases) > 0
    ensures forall phase :: phase in Spenders(phases) ==> Spent(phase)
  {
    if phases != [] {
      SpendersSpend(phases[1..]);
      var rest := Spenders(phases[1..]);
      assert ([phases[0]] + rest)[1..] == rest;
    }
  }

  function Total(entries: seq<Entry>): real {
    if entries == [] then 0.0 else entries[0].share + Total(entries[1..])
  }

  predicate AllPositive(entries: seq<Entry>) {
    entries == [] || (entries[0].share > 0.0 && AllPositive(entries[1..]))
  }

  lemma {:induction false} SharesAddUp(phases: seq<Phase>, sum: int)
    requires sum > 0 && forall phase :: phase in phases ==> Spent(phase)
    ensures Total(EntriesOf(phases, sum)) == Tokens(phases) as real / sum as real
    ensures AllPositive(EntriesOf(phases, sum))
  {
    if phases != [] {
      SharesAddUp(phases[1..], sum);
      var first, rest := phases[0], EntriesOf(phases[1..], sum);
      assert EntriesOf(phases, sum)[1..] == rest && first in phases;
      FractionsAdd(first.tokens.value, Tokens(phases[1..]), sum);
    }
  }

  lemma {:induction false} FractionsAdd(a: nat, b: nat, sum: int)
    requires sum > 0
    ensures a as real / sum as real + b as real / sum as real == (a + b) as real / sum as real
    ensures a > 0 ==> a as real / sum as real > 0.0
  {
  }

  lemma {:induction false} WholeIsOne(sum: int)
    requires sum > 0
    ensures sum as real / sum as real == 1.0
  {
  }

  /** The shares are positive and add up to exactly one when any phase spent tokens. */
  lemma {:induction false} SharesAreOne(phases: seq<Phase>)
    ensures var entries := ShareEntries(phases);
            AllPositive(entries) && Total(entries) == if Tokens(phases) > 0 then 1.0 else 0.0
  {
    SpendersSpend(phases);
    var spent := Spenders(phases);
    if spent != [] {
      SharesAddUp(spent, Tokens(spent));
      WholeIsOne(Tokens(spent));
    }
  }

  // ---- the legend ----

  /** The two orders the legend sorts by: the largest share first, ties by number; and the number alone. */
  datatype Order = ByShare | ByNumber

  predicate Before(order: Order, a: Entry, b: Entry) {
    match order
    case ByShare => a.share > b.share || (a.share == b.share && a.number < b.number)
    case ByNumber => a.number < b.number
  }

  function Insert(order: Order, entry: Entry, sorted: seq<Entry>): seq<Entry> {
    if sorted == [] || Before(order, entry, sorted[0]) then [entry] + sorted
    else [sorted[0]] + Insert(order, entry, sorted[1..])
  }

  /** The entries sorted, as the runtime's sort leaves them. */
  function Sorted(order: Order, entries: seq<Entry>): seq<Entry> {
    if entries == [] then [] else Insert(order, entries[0], Sorted(order, entries[1..]))
  }

  /** The largest shares up to the limit, listed in phase order. */
  function LegendEntries(entries: seq<Entry>, limit: int): seq<Entry> {
    var ranked := Sorted(ByShare, entries);
    var most := if limit < 0 then 0 else limit;
    Sorted(ByNumber, if most < |ranked| then ranked[..most] else ranked)
  }

  /** Each entry comes before all the later ones. */
  ghost predicate InOrder(order: Order, entries: seq<Entry>) {
    entries == [] || ((forall later :: later in entries[1..] ==> Before(order, entries[0], later)) && InOrder(order, entries[1..]))
  }

  ghost predicate DistinctNumbers(entries: seq<Entry>) {
    entries == [] || ((forall later :: later in entries[1..] ==> later.number != entries[0].number) && DistinctNumbers(entries[1..]))
  }

  ghost predicate Lacks(entries: seq<Entry>, number: int) {
    forall entry :: entry in entries ==> entry.number != number
  }

  lemma {:induction false} Inserted(order: Order, entry: Entry, sorted: seq<Entry>)
    requires InOrder(order, sorted) && DistinctNumbers(sorted) && Lacks(sorted, entry.number)
    ensures var all := Insert(order, entry, sorted);
            && |all| == |sorted| + 1 && (forall e :: e in all <==> e == entry || e in sorted)
            && InOrder(order, all) && DistinctNumbers(all)
  {
    if sorted == [] || Before(order, entry, sorted[0]) {
      assert ([entry] + sorted)[1..] == sorted;
      forall later | later in sorted
        ensures Before(order, entry, later)
      {
        if later != sorted[0] {
          assert later in sorted[1..];
        }
      }
    } else {
      Inserted(order, entry, sorted[1..]);
      var rest := Insert(order, entry, sorted[1..]);
      assert ([sorted[0]] + rest)[1..] == rest;
    }
  }

  lemma {:induction false} SortedProperly(order: Order, entries: seq<Entry>)
    requires DistinctNumbers(entries)
    ensures var sorted := Sorted(order, entries);
            && |sorted| == |entries| && (forall e :: e in sorted <==> e in entries)
            && InOrder(order, sorted) && DistinctNumbers(sorted)
  {
    if entries != [] {
      SortedProperly(order, entries[1..]);
      Inserted(order, entries[0], Sorted(order, entries[1..]));
    }
  }

  lemma {:induction false} PrefixOf(order: Order, entries: seq<Entry>, n: nat)
    requires n <= |entries| && InOrder(order, entries) && DistinctNumbers(entries)
    ensures DistinctNumbers(entries[..n])
    ensures forall a, b :: a in entries[..n] && b in entries[n..] ==> Before(order, a, b)
  {
    if n > 0 {
      PrefixOf(order, entries[1..], n - 1);
      assert entries[..n] == [entries[0]] + entries[1..][..n - 1];
      assert entries[..n][1..] == entries[1..][..n - 1];
      assert entries[n..] == entries[1..][n - 1..];
    }
  }

  /** The legend has as many entries as the limit allows, in ascending phase order, and every entry left out has a
      smaller share than every one kept, or the same share and a larger number. */
  lemma {:induction false} LegendIsTopOfShares(entries: seq<Entry>, limit: int)
    requires DistinctNumbers(entries)
    ensures var legend := LegendEntries(entries, limit);
            && |legend| == (if limit < 0 then 0 else if limit < |entries| then limit else |entries|)
            && InOrder(ByNumber, legend)
            && (forall e :: e in legend ==> e in entries)
            && (forall kept, out :: kept in legend && out in entries && out !in legend ==> Before(ByShare, kept, out))
  {
    var ranked := Sorted(ByShare, entries);
    SortedProperly(ByShare, entries);
    var most := if limit < 0 then 0 else if limit < |entries| then limit else |entries|;
    PrefixOf(ByShare, ranked, most);
    assert ranked[..|ranked|] == ranked;
    assert LegendEntries(entries, limit) == Sorted(ByNumber, ranked[..most]);
    SortedProperly(ByNumber, ranked[..most]);
    CutHolds(ranked, most);
  }

  lemma {:induction false} CutHolds(ranked: seq<Entry>, most: nat)
    requires most <= |ranked|
    ensures forall e :: e in ranked <==> e in ranked[..most] || e in ranked[most..]
  {
    assert ranked == ranked[..most] + ranked[most..];
  }

  /** Whether an entry is one of the list and comes before all the others. */
  ghost predicate ComesFirst(order: Order, entries: seq<Entry>, first: Entry) {
    first in entries && forall e :: e in entries ==> e == first || Before(order, first, e)
  }

  lemma {:induction false} HeadComesFirst(order: Order, entries: seq<Entry>)
    requires entries != [] && InOrder(order, entries)
    ensures ComesFirst(order, entries, entries[0])
  {
    assert entries == [entries[0]] + entries[1..];
  }

  lemma {:induction false} OneComesFirst(order: Order, s: seq<Entry>, t: seq<Entry>, a: Entry, b: Entry)
    requires ComesFirst(order, s, a) && ComesFirst(order, t, b) && forall e :: e in s <==> e in t
    ensures a == b
  {
  }

  /** Entries with distinct numbers have one order: whatever sort the runtime uses, it gives this list. */
  lemma {:induction false} OnlyOneOrder(order: Order, s: seq<Entry>, t: seq<Entry>)
    requires InOrder(order, s) && InOrder(order, t) && DistinctNumbers(s) && DistinctNumbers(t)
    requires |s| == |t| && forall e :: e in s <==> e in t
    ensures s == t
    decreases |s|
  {
    if s != [] {
      HeadComesFirst(order, s);
      HeadComesFirst(order, t);
      OneComesFirst(order, s, t, s[0], t[0]);
      assert s == [s[0]] + s[1..] && t == [t[0]] + t[1..];
      OnlyOneOrder(order, s[1..], t[1..]);
    }
  }
}
