// The additions and deletions bar of a changed file (studio/src/lib/files.ts:13-16, 43-52).
module Bar {
  import opened Wrappers

  /** A count usable in a bar: a positive number, else 0. */
  function Positive(count: Option<int>): nat {
    if count.Some? && count.value > 0 then count.value else 0
  }

  /** The nearest integer to `n / d`, halves up. */
  function Rounded(n: int, d: int): int
    requires d > 0
  {
    (2 * n + d) / (2 * d)
  }

  datatype Widths = Widths(add: int, del: int)

  function Clamp(value: int, most: int): int {
    var atLeastOne := if value < 1 then 1 else value;
    if atLeastOne > most then most else atLeastOne
  }

  /** The widths of the additions and deletions in a bar, a gap between them only when both are drawn. */
  function ProportionBar(added: Option<int>, deleted: Option<int>, width: int, gap: int): Widths {
    var adds, dels := Positive(added), Positive(deleted);
    if adds == 0 && dels == 0 then Widths(0, 0)
    else if dels == 0 then Widths(width, 0)
    else if adds == 0 then Widths(0, width)
    else
      var room := width - gap;
      var add := Clamp(Rounded(room * adds, adds + dels), room - 1);
      Widths(add, room - add)
  }

  lemma {:induction false} RoundedIsNearest(n: int, d: int)
    requires d > 0
    ensures 2 * n - d < 2 * d * Rounded(n, d) <= 2 * n + d
  {
    var q, r := (2 * n + d) / (2 * d), (2 * n + d) % (2 * d);
    assert 2 * n + d == 2 * d * q + r;
  }

  lemma {:induction false} Scaled(k: int, a: int, b: int)
    requires k > 0
    ensures a <= b <==> k * a <= k * b
  {
    if a < b {
      assert k * (b - a) > 0;
    } else if a > b {
      assert k * (a - b) > 0;
    }
  }

  lemma {:induction false} RoundedIsLargest(n: int, d: int, a: int)
    requires d > 0 && 2 * d * a <= 2 * n + d
    ensures a <= Rounded(n, d)
  {
    RoundedIsNearest(n, d);
    var b := Rounded(n, d);
    assert 2 * d * (b + 1) == 2 * d * b + 2 * d;
    Scaled(2 * d, b + 1, a);
  }

  /** Rounding keeps the order of two fractions. */
  lemma {:induction false} RoundedIsMonotone(n: int, d: int, m: int, e: int)
    requires d > 0 && e > 0 && n * e <= m * d
    ensures Rounded(n, d) <= Rounded(m, e)
  {
    var a := Rounded(n, d);
    RoundedIsNearest(n, d);
    Scaled(e, 2 * d * a, 2 * n + d);
    Regrouped(n, d, m, e, a);
    Scaled(d, 2 * e * a, 2 * m + e);
    RoundedIsLargest(m, e, a);
  }

  lemma {:induction false} Regrouped(n: int, d: int, m: int, e: int, a: int)
    requires n * e <= m * d && e * (2 * d * a) <= e * (2 * n + d)
    ensures d * (2 * e * a) <= d * (2 * m + e)
  {
    var p := d * e;
    assert e * (2 * d * a) == 2 * (p * a) && d * (2 * e * a) == 2 * (p * a);
    assert e * (2 * n + d) == 2 * (n * e) + p;
    assert d * (2 * m + e) == 2 * (m * d) + p;
  }

  /** Both bars are drawn and fill the width with the gap; each is at least a pixel exactly when the width leaves room. */
  lemma {:induction false} BarsFillTheWidth(adds: int, dels: int, width: int, gap: int)
    requires adds > 0 && dels > 0
    ensures var bar := ProportionBar(Some(adds), Some(dels), width, gap);
            bar.add + gap + bar.del == width && (bar.add >= 1 && bar.del >= 1 <==> width >= gap + 2)
  {
  }

  /** More additions never shrink the additions bar. */
  lemma {:induction false} BarIsMonotone(fewer: int, more: int, dels: int, width: int, gap: int)
    requires 0 < fewer <= more && dels > 0
    ensures ProportionBar(Some(fewer), Some(dels), width, gap).add <= ProportionBar(Some(more), Some(dels), width, gap).add
  {
    var room := width - gap;
    if room > 0 {
      LargerShare(room, fewer, more, dels);
      RoundedIsMonotone(room * fewer, fewer + dels, room * more, more + dels);
    }
  }

  lemma {:induction false} LargerShare(room: int, fewer: int, more: int, dels: int)
    requires room > 0 && 0 < fewer <= more && dels > 0
    ensures room * fewer * (more + dels) <= room * more * (fewer + dels)
  {
    var p := fewer * more;
    Scaled(dels, fewer, more);
    assert fewer * (more + dels) == p + dels * fewer;
    assert more * (fewer + dels) == p + dels * more;
    Scaled(room, fewer * (more + dels), more * (fewer + dels));
    assert room * fewer * (more + dels) == room * (fewer * (more + dels));
    assert room * more * (fewer + dels) == room * (more * (fewer + dels));
  }

  /** The additions bar misses the exact share of the room by less than a pixel. */
  lemma {:induction false} BarIsAccurate(adds: int, dels: int, width: int, gap: int)
    requires adds > 0 && dels > 0 && width >= gap + 2
    ensures var bar, total, room := ProportionBar(Some(adds), Some(dels), width, gap), adds + dels, width - gap;
            -total < bar.add * total - room * adds < total
  {
    var room, total := width - gap, adds + dels;
    RoundedIsNearest(room * adds, total);
    ExactShareIsInside(room, adds, dels);
    ClampedIsNear(Rounded(room * adds, total), room * adds, room, total);
  }

  /** The exact share is inside the room, at either end by less than a whole pixel's worth of the total. */
  lemma {:induction false} ExactShareIsInside(room: int, adds: int, dels: int)
    requires room >= 2 && adds > 0 && dels > 0
    ensures 0 < room * adds < room * (adds + dels)
  {
    Scaled(room, 1, adds);
    Scaled(room, 1, dels);
    assert room * (adds + dels) == room * adds + room * dels;
  }

  lemma {:induction false} ClampedIsNear(rounded: int, exact: int, room: int, total: int)
    requires room >= 2 && total > 0 && 0 < exact < room * total
    requires 2 * exact - total < 2 * total * rounded <= 2 * exact + total
    ensures -total < Clamp(rounded, room - 1) * total - exact < total
  {
    assert 2 * total * rounded == 2 * (rounded * total);
    if rounded < 1 {
      Scaled(total, rounded, 0);
    } else if rounded > room - 1 {
      Scaled(total, room, rounded);
      assert (room - 1) * total == room * total - total;
    }
  }
}
