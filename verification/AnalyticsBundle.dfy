/** The per-account series: account-level rows, with post credits as fallback or fresher overlay. */
module AnalyticsBundle {
  import opened Prelude
  import opened SnapshotDeltas

  datatype AccountRow = AccountRow(metric: string, day: int, value: real, captured: int)

  function ByDay(rows: seq<AccountRow>, m: string): map<int, real> {
    if rows == [] then map[] else
      var r := rows[|rows| - 1];
      var front := ByDay(rows[..|rows| - 1], m);
      if r.metric == m then front[r.day := r.value] else front
  }

  function CapturedOf(rows: seq<AccountRow>, m: string): Option<int> {
    if rows == [] then None else
      var r := rows[|rows| - 1];
      var front := CapturedOf(rows[..|rows| - 1], m);
      if r.metric == m then Later(front, Some(r.captured)) else front
  }

  function Fresher(fallback: Option<int>, account: Option<int>): bool {
    fallback.Some? && account.Some? && fallback.value > account.value
  }

  /** The account rows and the post rows of an account, and which metrics posts may stand in for. */
  datatype Snapshots = Snapshots(account: seq<AccountRow>, posts: map<string, seq<PostRow>>, supported: set<string>) {
    function PostsOf(m: string): seq<PostRow> { if m in posts then posts[m] else [] }

    predicate UsesPosts(m: string, start: int) {
      && m in supported && Daily(PostsOf(m), start) != map[]
      && (ByDay(account, m) == map[] || Fresher(Latest(PostsOf(m)), CapturedOf(account, m)))
    }

    /** The day values behind a metric's chart. */
    function Merged(m: string, start: int): map<int, real> {
      if UsesPosts(m, start) then ByDay(account, m) + Daily(PostsOf(m), start) else ByDay(account, m)
    }

    /** The day values behind a metric queried by itself. */
    function Single(m: string, start: int): map<int, real> {
      if ByDay(account, m) == map[] && m in supported then Daily(PostsOf(m), start) else ByDay(account, m)
    }

    function Freshness(metrics: seq<string>, start: int): Option<int> {
      if metrics == [] then LatestAccount(account) else
        var n := |metrics| - 1;
        if UsesPosts(metrics[n], start) then Later(Freshness(metrics[..n], start), Latest(PostsOf(metrics[n])))
        else Freshness(metrics[..n], start)
    }

    ghost predicate Valid(start: int, end: int) {
      forall m | m in posts :: Within(posts[m], start, end) && Ordered(posts[m])
    }
  }

  function LatestAccount(rows: seq<AccountRow>): Option<int> {
    if rows == [] then None else Later(LatestAccount(rows[..|rows| - 1]), Some(rows[|rows| - 1].captured))
  }

  /** Days absent from the dictionary read as zero. */
  function Series(daily: map<int, real>, start: int, length: nat): (s: seq<real>) {
    seq(length, i => At(daily, start + i))
  }

  method SeriesFor(db: Snapshots, m: string, end: int, days: nat) returns (out: seq<real>)
    requires db.Valid(end - (2 * days - 1), end)
    ensures out == Series(db.Single(m, end - (2 * days - 1)), end - (2 * days - 1), 2 * days)
    ensures var start := end - (2 * days - 1);
      |out| == 2 * days && forall i | 0 <= i < 2 * days :: SingleValue(db, m, start, start + i, out[i])
  {
    var start := end - (2 * days - 1);
    var byDay: map<int, real> := map[];
    for i := 0 to |db.account|
      invariant byDay == ByDay(db.account[..i], m)
    {
      assert db.account[..i + 1][..i] == db.account[..i];
      if db.account[i].metric == m {
        byDay := byDay[db.account[i].day := db.account[i].value];
      }
    }
    assert db.account[..|db.account|] == db.account;
    if byDay == map[] && m in db.supported {
      var fallback, captured := PostSummedSeries(db.PostsOf(m), start, end);
      byDay := fallback;
    }
    out := [];
    for i := 0 to 2 * days
      invariant out == Series(byDay, start, i)
    {
      out := out + [At(byDay, start + i)];
    }
    forall i: nat | i < 2 * days ensures SingleValue(db, m, start, start + i, out[i]) {
      SeriesForValues(db, m, start, 2 * days, i);
    }
  }

  method AccountBundle(db: Snapshots, metrics: seq<string>, end: int, days: nat)
    returns (seriesMap: map<string, seq<real>>, maxCaptured: Option<int>)
    requires db.Valid(end - (2 * days - 1), end)
    ensures seriesMap.Keys == set m | m in metrics
    ensures forall m | m in metrics ::
              seriesMap[m] == Series(db.Merged(m, end - (2 * days - 1)), end - (2 * days - 1), 2 * days)
    ensures maxCaptured == db.Freshness(metrics, end - (2 * days - 1))
  {
    var start := end - (2 * days - 1);
    var byMetric, capturedByMetric, accountCaptured := GroupAccountRows(db.account);
    maxCaptured := accountCaptured;
    seriesMap := map[];
    for i := 0 to |metrics|
      invariant maxCaptured == db.Freshness(metrics[..i], start)
      invariant seriesMap.Keys == set m | m in metrics[..i]
      invariant forall m | m in metrics[..i] :: seriesMap[m] == Series(db.Merged(m, start), start, 2 * days)
    {
      var m := metrics[i];
      assert metrics[..i + 1][..i] == metrics[..i] && metrics[..i + 1] == metrics[..i] + [m];
      var merged := if m in byMetric then byMetric[m] else map[];
      if m in db.supported {
        var daily, fallbackCaptured := PostSummedSeries(db.PostsOf(m), start, end);
        if daily != map[] {
          var account := if m in capturedByMetric then Some(capturedByMetric[m]) else None;
          if m !in byMetric || Fresher(fallbackCaptured, account) {
            merged := merged + daily;
            maxCaptured := Later(maxCaptured, fallbackCaptured);
          }
        }
      }
      seriesMap := seriesMap[m := Series(merged, start, 2 * days)];
    }
    assert metrics[..|metrics|] == metrics;
  }

  method GroupAccountRows(rows: seq<AccountRow>)
    returns (byMetric: map<string, map<int, real>>, captured: map<string, int>, maxCaptured: Option<int>)
    ensures forall m :: (if m in byMetric then byMetric[m] else map[]) == ByDay(rows, m)
    ensures forall m :: m in byMetric <==> ByDay(rows, m) != map[]
    ensures forall m :: (if m in captured then Some(captured[m]) else None) == CapturedOf(rows, m)
    ensures maxCaptured == LatestAccount(rows)
  {
    byMetric, captured, maxCaptured := map[], map[], None;
    for i := 0 to |rows|
      invariant forall m :: (if m in byMetric then byMetric[m] else map[]) == ByDay(rows[..i], m)
      invariant forall m :: m in byMetric <==> ByDay(rows[..i], m) != map[]
      invariant forall m :: (if m in captured then Some(captured[m]) else None) == CapturedOf(rows[..i], m)
      invariant maxCaptured == LatestAccount(rows[..i])
    {
      var r := rows[i];
      assert rows[..i + 1][..i] == rows[..i] && rows[..i + 1][i] == r;
      var days: map<int, real> := if r.metric in byMetric then byMetric[r.metric] else map[];
      assert r.day in days[r.day := r.value];
      byMetric := byMetric[r.metric := days[r.day := r.value]];
      if r.metric !in captured || r.captured > captured[r.metric] {
        captured := captured[r.metric := r.captured];
      }
      if maxCaptured.None? || r.captured > maxCaptured.value {
        maxCaptured := Some(r.captured);
      }
    }
    assert rows[..|rows|] == rows;
  }

  // ----- conservation up to the series

  function SumOf(s: seq<real>): real {
    if s == [] then 0.0 else SumOf(s[..|s| - 1]) + s[|s| - 1]
  }

  lemma {:induction false} SumSplits(s: seq<real>, k: nat)
    requires k <= |s|
    ensures SumOf(s) == SumOf(s[..k]) + SumOf(s[k..])
  {
    if k == |s| {
      assert s[..k] == s;
    } else {
      var n := |s| - 1;
      SumSplits(s[..n], k);
      assert s[..n][..k] == s[..k] && s[k..][..n - k] == s[..n][k..] && s[k..][n - k] == s[n];
    }
  }

  lemma {:induction false} SeriesSum(rows: seq<PostRow>, daily: map<int, real>, start: int, length: nat)
    requires forall d :: At(daily, d) == Credit(Histories(rows), start, d)
    ensures SumOf(Series(daily, start, length)) == CreditThrough(Histories(rows), start, start + length - 1)
  {
    if length == 0 {
    } else {
      SeriesSum(rows, daily, start, length - 1);
      SeriesSumGrows(daily, start, length);
    }
  }

  lemma SeriesSumGrows(daily: map<int, real>, start: int, length: nat)
    requires length > 0
    ensures SumOf(Series(daily, start, length)) ==
            SumOf(Series(daily, start, length - 1)) + At(daily, start + length - 1)
  {
    var s := Series(daily, start, length);
    assert s[..length - 1] == Series(daily, start, length - 1);
    SeriesAt(daily, start, length, length - 1);
  }

  lemma DailyAt(rows: seq<PostRow>, start: int)
    ensures forall d :: At(Daily(rows, start), d) == Credit(Histories(rows), start, d)
  {
    FoldIsPerPost(rows, start);
    forall d ensures At(Daily(rows, start), d) == Credit(Histories(rows), start, d) {
      if d !in RowWritten(rows, start) { NothingElsewhere(Histories(rows), start, d); }
    }
  }

  /** Without account rows, a metric's series sums to what its posts netted in the window. */
  lemma FallbackSeriesConserves(db: Snapshots, m: string, end: int, days: nat)
    requires db.Valid(end - (2 * days - 1), end) && m in db.supported && ByDay(db.account, m) == map[]
    ensures var start := end - (2 * days - 1);
      SumOf(Series(db.Merged(m, start), start, 2 * days)) == NetTotal(Histories(db.PostsOf(m)), start)
  {
    var start := end - (2 * days - 1);
    var rows := db.PostsOf(m);
    assert db.Merged(m, start) == Daily(rows, start);
    DailyAt(rows, start);
    SeriesSum(rows, Daily(rows, start), start, 2 * days);
    CreditsConserve(rows, start, end);
  }

  lemma OverlaySeries(account: map<int, real>, daily: map<int, real>, start: int, length: nat)
    ensures forall i | 0 <= i < length ::
              Series(account + daily, start, length)[i] ==
                if start + i in daily then daily[start + i] else Series(account, start, length)[i]
    ensures forall i | 0 <= i < length :: Series(account, start, length)[i] == At(account, start + i)
  {
    forall i | 0 <= i < length
      ensures Series(account + daily, start, length)[i] ==
              if start + i in daily then daily[start + i] else Series(account, start, length)[i]
    {
      SeriesAt(account + daily, start, length, i);
      SeriesAt(account, start, length, i);
    }
  }

  lemma SeriesAt(daily: map<int, real>, start: int, length: nat, i: nat)
    requires i < length
    ensures Series(daily, start, length)[i] == At(daily, start + i)
  {}

  /**
   * The bundle and the one-metric query agree exactly when no fresher post series is laid over
   * account rows, or the laid-over credits equal those rows day by day.
   */
  lemma BundleAgreesWithSeries(db: Snapshots, m: string, end: int, days: nat)
    requires db.Valid(end - (2 * days - 1), end)
    ensures var start := end - (2 * days - 1);
      Series(db.Merged(m, start), start, 2 * days) == Series(db.Single(m, start), start, 2 * days) <==>
      (ByDay(db.account, m) != map[] && db.UsesPosts(m, start) ==>
         forall d | d in Daily(db.PostsOf(m), start) :: At(ByDay(db.account, m), d) == Daily(db.PostsOf(m), start)[d])
  {
    var start := end - (2 * days - 1);
    var merged, single := Series(db.Merged(m, start), start, 2 * days), Series(db.Single(m, start), start, 2 * days);
    var account, daily := ByDay(db.account, m), Daily(db.PostsOf(m), start);
    if account == map[] {
      assert account + daily == daily;
    } else if db.UsesPosts(m, start) {
      forall d | d in daily ensures start <= d <= end { CreditsStayInWindow(db.PostsOf(m), start, end, d); }
      OverlaySeries(account, daily, start, 2 * days);
      if merged == single {
        forall d | d in daily ensures At(account, d) == daily[d] {
          assert merged[d - start] == At(account + daily, d) && single[d - start] == At(account, d);
        }
      }
    }
  }

  // ----- the values, read off the rows

  /** Row j is the last one of the metric dated d. */
  ghost predicate LastOn(rows: seq<AccountRow>, m: string, d: int, j: int) {
    && 0 <= j < |rows| && rows[j].metric == m && rows[j].day == d
    && forall i | j < i < |rows| :: !(rows[i].metric == m && rows[i].day == d)
  }

  lemma {:induction false} ByDayHas(rows: seq<AccountRow>, m: string, d: int)
    ensures d in ByDay(rows, m) <==> exists r :: r in rows && r.metric == m && r.day == d
  {
    if rows == [] {
    } else {
      var front, last := rows[..|rows| - 1], rows[|rows| - 1];
      assert rows == front + [last];
      ByDayHas(front, m, d);
    }
  }

  lemma {:induction false} ByDayIsLast(rows: seq<AccountRow>, m: string, d: int, j: int)
    requires LastOn(rows, m, d, j)
    ensures d in ByDay(rows, m) && ByDay(rows, m)[d] == rows[j].value
  {
    var n := |rows| - 1;
    if j < n {
      ByDayIsLast(rows[..n], m, d, j);
    }
  }

  ghost predicate HasRows(rows: seq<AccountRow>, m: string) {
    exists r :: r in rows && r.metric == m
  }

  lemma EmptyWithoutRows(rows: seq<AccountRow>, m: string)
    ensures ByDay(rows, m) == map[] <==> !HasRows(rows, m)
  {
    forall d ensures d in ByDay(rows, m) <==> exists r :: r in rows && r.metric == m && r.day == d {
      ByDayHas(rows, m, d);
    }
    if r :| r in rows && r.metric == m { assert r.day in ByDay(rows, m); }
  }

  /** What account rows alone give for day d: the value of the last one dated d, or zero. */
  ghost predicate AccountValue(rows: seq<AccountRow>, m: string, d: int, v: real) {
    && (forall j | LastOn(rows, m, d, j) :: v == rows[j].value)
    && ((forall r | r in rows && r.metric == m :: r.day != d) ==> v == 0.0)
  }

  lemma AtIsAccountValue(rows: seq<AccountRow>, m: string, d: int)
    ensures AccountValue(rows, m, d, At(ByDay(rows, m), d))
  {
    ByDayHas(rows, m, d);
    forall j | LastOn(rows, m, d, j) ensures At(ByDay(rows, m), d) == rows[j].value {
      ByDayIsLast(rows, m, d, j);
    }
  }

  /** What the one-metric query gives for day d. */
  ghost predicate SingleValue(db: Snapshots, m: string, start: int, d: int, v: real) {
    if HasRows(db.account, m) then AccountValue(db.account, m, d, v)
    else v == if m in db.supported then Credit(Histories(db.PostsOf(m)), start, d) else 0.0
  }

  lemma SingleAt(db: Snapshots, m: string, start: int, d: int)
    ensures SingleValue(db, m, start, d, At(db.Single(m, start), d))
  {
    EmptyWithoutRows(db.account, m);
    AtIsAccountValue(db.account, m, d);
    DailyAt(db.PostsOf(m), start);
  }

  /**
   * The one-metric query, day by day: the last account row of the day or zero when the metric has
   * account rows at all, and the credits of the posts when it has none and posts may stand in.
   */
  lemma SeriesForValues(db: Snapshots, m: string, start: int, length: nat, i: nat)
    requires i < length
    ensures |Series(db.Single(m, start), start, length)| == length
    ensures SingleValue(db, m, start, start + i, Series(db.Single(m, start), start, length)[i])
  {
    SingleAt(db, m, start, start + i);
    SeriesAt(db.Single(m, start), start, length, i);
  }

  lemma {:induction false} CapturedIsNewest(rows: seq<AccountRow>, m: string)
    ensures CapturedOf(rows, m).None? <==> !HasRows(rows, m)
    ensures CapturedOf(rows, m).Some? ==>
              exists r :: r in rows && r.metric == m && r.captured == CapturedOf(rows, m).value
    ensures forall r | r in rows && r.metric == m ::
              CapturedOf(rows, m).Some? && r.captured <= CapturedOf(rows, m).value
  {
    if rows == [] {
    } else {
      var front, r := rows[..|rows| - 1], rows[|rows| - 1];
      assert rows == front + [r] && r in rows;
      CapturedIsNewest(front, m);
      if CapturedOf(front, m).Some? {
        var x :| x in front && x.metric == m && x.captured == CapturedOf(front, m).value;
        assert x in rows;
      }
    }
  }

  /** The posts' credits are used: there are some, and some post row is fresher than every account row of the metric. */
  ghost predicate Overlaid(db: Snapshots, m: string, start: int) {
    && m in db.supported && Daily(db.PostsOf(m), start) != map[]
    && (!HasRows(db.account, m) ||
        exists p :: p in db.PostsOf(m) && p.captured.Some? &&
          forall r | r in db.account && r.metric == m :: r.captured < p.captured.value)
  }

  lemma UsesPostsWhenOverlaid(db: Snapshots, m: string, start: int)
    ensures db.UsesPosts(m, start) <==> Overlaid(db, m, start)
  {
    EmptyWithoutRows(db.account, m);
    CapturedIsNewest(db.account, m);
    LatestIsNewest(db.PostsOf(m));
  }

  /** What the bundle gives for day d. */
  ghost predicate BundleValue(db: Snapshots, m: string, start: int, d: int, v: real) {
    if Overlaid(db, m, start) && d in Daily(db.PostsOf(m), start)
    then v == Credit(Histories(db.PostsOf(m)), start, d)
    else AccountValue(db.account, m, d, v)
  }

  lemma MergedAt(db: Snapshots, m: string, start: int, d: int)
    ensures BundleValue(db, m, start, d, At(db.Merged(m, start), d))
  {
    UsesPostsWhenOverlaid(db, m, start);
    AtIsAccountValue(db.account, m, d);
    DailyAt(db.PostsOf(m), start);
    var account, daily := ByDay(db.account, m), Daily(db.PostsOf(m), start);
    assert At(account + daily, d) == if d in daily then At(daily, d) else At(account, d);
  }

  /**
   * The bundle, day by day: what the account rows give, and on the days the posts write to their
   * credit instead, where the posts are used.
   */
  lemma BundleValues(db: Snapshots, m: string, start: int, length: nat, i: nat)
    requires i < length
    ensures |Series(db.Merged(m, start), start, length)| == length
    ensures BundleValue(db, m, start, start + i, Series(db.Merged(m, start), start, length)[i])
  {
    MergedAt(db, m, start, start + i);
    SeriesAt(db.Merged(m, start), start, length, i);
  }

  /** A capture the bundle's freshness counts: of any account row, or of a post row of an overlaid metric. */
  ghost predicate Counts(db: Snapshots, metrics: seq<string>, start: int, captured: int) {
    || (exists r :: r in db.account && r.captured == captured)
    || exists m, p :: m in metrics && Overlaid(db, m, start) && p in db.PostsOf(m) && p.captured == Some(captured)
  }

  lemma {:induction false} AccountIsNewest(rows: seq<AccountRow>)
    ensures LatestAccount(rows).None? <==> rows == []
    ensures LatestAccount(rows).Some? ==> exists r :: r in rows && r.captured == LatestAccount(rows).value
    ensures forall r | r in rows :: LatestAccount(rows).Some? && r.captured <= LatestAccount(rows).value
  {
    if rows == [] {
    } else {
      var front, r := rows[..|rows| - 1], rows[|rows| - 1];
      assert rows == front + [r] && r in rows;
      AccountIsNewest(front);
      if front != [] {
        var x :| x in front && x.captured == LatestAccount(front).value;
        assert x in rows;
      }
    }
  }

  /** The freshness is the newest of them, and missing exactly when there is none. */
  lemma {:induction false} FreshnessIsNewest(db: Snapshots, metrics: seq<string>, start: int)
    ensures var newest := db.Freshness(metrics, start);
      && (newest.Some? ==> Counts(db, metrics, start, newest.value))
      && forall captured | Counts(db, metrics, start, captured) :: newest.Some? && captured <= newest.value
  {
    if metrics == [] {
      AccountIsNewest(db.account);
    } else {
      var front, m := metrics[..|metrics| - 1], metrics[|metrics| - 1];
      assert metrics == front + [m] && m in metrics;
      FreshnessIsNewest(db, front, start);
      UsesPostsWhenOverlaid(db, m, start);
      LatestIsNewest(db.PostsOf(m));
      forall captured ensures Counts(db, metrics, start, captured) <==>
        Counts(db, front, start, captured) ||
        (Overlaid(db, m, start) && exists p :: p in db.PostsOf(m) && p.captured == Some(captured))
      {
        MoreCounts(db, front, m, start, captured);
      }
    }
  }

  lemma MoreCounts(db: Snapshots, front: seq<string>, m: string, start: int, captured: int)
    ensures Counts(db, front + [m], start, captured) <==>
        Counts(db, front, start, captured) ||
        (Overlaid(db, m, start) && exists p :: p in db.PostsOf(m) && p.captured == Some(captured))
  {
    var metrics := front + [m];
    assert m in metrics;
    if x, p :| x in front && Overlaid(db, x, start) && p in db.PostsOf(x) && p.captured == Some(captured) {
      assert x in metrics;
    }
  }
}
