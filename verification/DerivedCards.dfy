/** The value and change a card shows for a daily series. */
module DerivedCards {
  import opened Prelude
  import opened SnapshotDeltas
  import opened AnalyticsBundle

  datatype Kind = Count | Percent | Minutes

  /** delta is before rounding. */
  datatype DerivedMetric = DerivedMetric(value: real, delta: real, series: seq<real>, kind: Kind)

  /** A Python slice bound: negative counts from the end, and both ends are clamped. */
  function Bound(i: int, n: nat): (b: nat)
    ensures b <= n
  {
    if i < 0 then if n + i < 0 then 0 else n + i
    else if i < n then i else n
  }

  function Slice(s: seq<real>, lo: int, hi: int): seq<real> {
    var l, h := Bound(lo, |s|), Bound(hi, |s|);
    if l < h then s[l..h] else []
  }

  /** The current and the previous window. */
  function Split(values: seq<real>, days: int): (seq<real>, seq<real>) {
    if values == [] then ([], []) else (Slice(values, -days, |values|), Slice(values, -2 * days, -days))
  }

  function Average(s: seq<real>): real { if s == [] then 0.0 else SumOf(s) / |s| as real }

  function Headline(window: seq<real>, kind: Kind): real {
    if kind.Count? then SumOf(window) else Average(window)
  }

  function Derive(values: seq<real>, days: int, kind: Kind): DerivedMetric {
    var (cur, prev) := Split(values, days);
    var c, p := Headline(cur, kind), Headline(prev, kind);
    DerivedMetric(c, if p != 0.0 then (c - p) / p * 100.0 else 0.0, cur, kind)
  }

  /** The windows are adjacent: together they are the last 2·days values, or all when there are fewer. */
  lemma SplitIsAdjacent(values: seq<real>, days: int)
    requires days >= 1
    ensures var (cur, prev) := Split(values, days);
      prev + cur == Slice(values, -2 * days, |values|) && |cur| == if days <= |values| then days else |values|
  {}

  /** With no days the "last 0 values" are the whole list, so the card would sum everything. */
  lemma ZeroDaysTakesEverything(values: seq<real>)
    ensures Split(values, 0) == (values, [])
  {
    assert values[0..|values|] == values;
  }

  /** Both windows of a count add up to the whole 2·days series. */
  lemma CountWindowsAddUp(values: seq<real>, days: int)
    requires days >= 1 && |values| == 2 * days
    ensures var (cur, prev) := Split(values, days);
      Derive(values, days, Count).value + SumOf(prev) == SumOf(values) && |prev| == |cur| == days
  {
    SumSplits(values, days);
    assert values[days..2 * days] == values[days..] && values[0..days] == values[..days];
  }

  lemma {:induction false} SumBounds(s: seq<real>, lo: real, hi: real)
    requires forall x | x in s :: lo <= x <= hi
    ensures lo * |s| as real <= SumOf(s) <= hi * |s| as real
  {
    if s == [] {
    } else {
      var n := |s| - 1;
      assert forall x | x in s[..n] :: x in s;
      SumBounds(s[..n], lo, hi);
      assert s[n] in s && (n + 1) as real == n as real + 1.0;
      assert lo * (n + 1) as real == lo * n as real + lo && hi * (n + 1) as real == hi * n as real + hi;
    }
  }

  /** A rate's headline lies between the least and the greatest value of its window. */
  lemma AverageIsBetween(values: seq<real>, days: int, kind: Kind, lo: real, hi: real)
    requires days >= 1 && values != [] && !kind.Count? && forall x | x in values :: lo <= x <= hi
    ensures lo <= Derive(values, days, kind).value <= hi
  {
    var (cur, prev) := Split(values, days);
    SplitIsAdjacent(values, days);
    CurrentFromValues(values, days);
    AverageBetween(cur, lo, hi);
  }

  lemma CurrentFromValues(values: seq<real>, days: int)
    ensures forall x | x in Split(values, days).0 :: x in values
  {}

  lemma AverageBetween(s: seq<real>, lo: real, hi: real)
    requires s != [] && forall x | x in s :: lo <= x <= hi
    ensures lo <= Average(s) <= hi
  {
    SumBounds(s, lo, hi);
    Divide(SumOf(s), |s| as real, lo, hi);
  }

  lemma Divide(x: real, n: real, lo: real, hi: real)
    requires n > 0.0 && lo * n <= x <= hi * n
    ensures lo <= x / n <= hi
  {}

  /** The change carries the previous headline to the current one; from zero it reads as no change. */
  lemma DeltaRelatesWindows(values: seq<real>, days: int, kind: Kind)
    ensures var p := Headline(Split(values, days).1, kind);
      var d := Derive(values, days, kind);
      if p == 0.0 then d.delta == 0.0 else d.value == p * (1.0 + d.delta / 100.0)
  {}

  /** End to end: for a count without account rows, the two card windows add up to what the posts netted. */
  lemma CardsConserveTotals(db: Snapshots, m: string, end: int, days: nat)
    requires days >= 1 && db.Valid(end - (2 * days - 1), end) && m in db.supported && ByDay(db.account, m) == map[]
    ensures var start := end - (2 * days - 1);
      var values := Series(db.Merged(m, start), start, 2 * days);
      Derive(values, days, Count).value + SumOf(Split(values, days).1) == NetTotal(Histories(db.PostsOf(m)), start)
  {
    var start := end - (2 * days - 1);
    FallbackSeriesConserves(db, m, end, days);
    CountWindowsAddUp(Series(db.Merged(m, start), start, 2 * days), days);
  }

  /** The windows by index: the last `days` values, and up to as many before them. */
  lemma WindowsByIndex(values: seq<real>, days: int)
    requires days >= 1
    ensures var (cur, prev) := Split(values, days);
      var n := |values|;
      var mid, low := if days <= n then n - days else 0, if 2 * days <= n then n - 2 * days else 0;
      cur == values[mid..] && prev == values[low..mid]
  {
    var n := |values|;
    assert values[0..n] == values[0..] && values[0..0] == [];
  }

  /** A count's headline is the sum of its window; a rate's, times the window's length, is. */
  lemma HeadlineAddsUp(values: seq<real>, days: int, kind: Kind)
    ensures var d, cur := Derive(values, days, kind), Split(values, days).0;
      && d.series == cur && d.kind == kind
      && (kind == Count ==> d.value == SumOf(cur))
      && (kind != Count && cur != [] ==> d.value * |cur| as real == SumOf(cur))
      && (kind != Count && cur == [] ==> d.value == 0.0)
  {}
}
