/** When a post's metrics are fetched again, and the time announced for it. All times are in microseconds. */
module SyncCadence {
  import opened Prelude

  const HOUR: int := 3_600_000_000
  const DAY: int := 24 * HOUR
  const FIRST_POLL_DELAY: int := 300_000_000

  datatype Rung = Rung(maxAge: Option<int>, interval: Option<int>)

  const CADENCE: seq<Rung> := [
    Rung(Some(DAY), Some(HOUR)), Rung(Some(7 * DAY), Some(6 * HOUR)), Rung(Some(30 * DAY), Some(DAY)),
    Rung(Some(90 * DAY), Some(7 * DAY)), Rung(None, None)]

  function Interval(age: int): Option<int> {
    if age < DAY then Some(HOUR)
    else if age < 7 * DAY then Some(6 * HOUR)
    else if age < 30 * DAY then Some(DAY)
    else if age < 90 * DAY then Some(7 * DAY)
    else None
  }

  /** The table scan: the first row whose maximum age exceeds the post's age. */
  method PostSyncInterval(age: int) returns (interval: Option<int>)
    ensures interval == Interval(age)
  {
    for i := 0 to |CADENCE|
      invariant i < |CADENCE|
      invariant forall j | 0 <= j < i :: CADENCE[j].maxAge.Some? && age >= CADENCE[j].maxAge.value
    {
      if CADENCE[i].maxAge.None? || age < CADENCE[i].maxAge.value {
        assert i > 0 ==> age >= CADENCE[i - 1].maxAge.value;
        return CADENCE[i].interval;
      }
    }
    return None;
  }

  /** Ageing never brings the next sync closer, and the stop is final. */
  lemma IntervalNeverShrinks(younger: int, older: int)
    requires younger <= older
    ensures Interval(older).Some? ==> Interval(younger).Some? && Interval(younger).value <= Interval(older).value
  {}

  datatype Snapshot = Snapshot(metric: string, captured: int)

  /** The newest capture among the metrics that are not excluded. */
  function LastCaptured(rows: seq<Snapshot>, excluded: set<string>): Option<int> {
    if rows == [] then None else
      var r := rows[|rows| - 1];
      var front := LastCaptured(rows[..|rows| - 1], excluded);
      if r.metric in excluded then front else Later(front, Some(r.captured))
  }

  predicate CadenceDue(published: Option<int>, rows: seq<Snapshot>, excluded: set<string>, now: int) {
    && published.Some? && Interval(now - published.value).Some?
    && (LastCaptured(rows, excluded).None? ||
        now - LastCaptured(rows, excluded).value >= Interval(now - published.value).value)
  }

  /** The announced pair: newest capture of any metric, and the next sync. */
  function PostFreshness(noAnalytics: bool, published: Option<int>, rows: seq<Snapshot>, now: int)
    : (Option<int>, Option<int>)
  {
    if noAnalytics || published.None? then (None, None)
    else
      var last, interval := LastCaptured(rows, {}), Interval(now - published.value);
      if interval.None? then (last, None)
      else if last.None? then
        (None, Some(now + if interval.value < FIRST_POLL_DELAY then interval.value else FIRST_POLL_DELAY))
      else (last, Some(last.value + interval.value))
  }

  /** Without exclusions, a post with a snapshot is not due before the announced time. */
  lemma NotDueBeforeEta(published: int, rows: seq<Snapshot>, now: int, later: int)
    requires LastCaptured(rows, {}).Some?
    requires PostFreshness(false, Some(published), rows, now).1.Some?
    requires now <= later < PostFreshness(false, Some(published), rows, now).1.value
    ensures !CadenceDue(Some(published), rows, {}, later)
  {}

  /** It is due at the announced time exactly when that is past already or the post stays on its rung until then. */
  lemma DueAtEtaUnlessSlower(published: int, rows: seq<Snapshot>, now: int)
    requires LastCaptured(rows, {}).Some? && PostFreshness(false, Some(published), rows, now).1.Some?
    ensures var eta := PostFreshness(false, Some(published), rows, now).1.value;
      CadenceDue(Some(published), rows, {}, eta) <==>
        eta <= now || Interval(eta - published) == Interval(now - published)
  {}

  /** Once no time is announced for a published post, it is never due again, whatever is captured. */
  lemma NoEtaMeansNeverAgain(published: int, rows: seq<Snapshot>, now: int, later: int, rowsLater: seq<Snapshot>,
                             excluded: set<string>)
    requires PostFreshness(false, Some(published), rows, now).1.None? && now <= later
    ensures !CadenceDue(Some(published), rowsLater, excluded, later)
  {}

  /** The last moments of the rungs, and of the wait itself: where a counted capture is at its oldest. */
  function LastMoments(published: int, eta: int): set<int> {
    {eta - 1, published + DAY - 1, published + 7 * DAY - 1, published + 30 * DAY - 1, published + 90 * DAY - 1}
  }

  predicate StillFresh(counted: Option<int>, published: int, m: int) {
    Interval(m - published).None? || (counted.Some? && m - counted.value < Interval(m - published).value)
  }

  /** On a rung it is the last moment that decides. */
  lemma RungEndDecides(counted: Option<int>, published: int, eta: int, later: int) returns (m: int)
    requires later < eta
    ensures Interval(later - published).Some? ==> m in LastMoments(published, eta) && later <= m < eta
    ensures StillFresh(counted, published, m) ==> StillFresh(counted, published, later)
  {
    var age := later - published;
    var end := if age < DAY then published + DAY - 1
               else if age < 7 * DAY then published + 7 * DAY - 1
               else if age < 30 * DAY then published + 30 * DAY - 1
               else published + 90 * DAY - 1;
    m := if end < eta then end else eta - 1;
  }

  /**
   * Where a platform excludes metrics, the announced time counts captures the cadence does not. The
   * announcement holds exactly when the newest counted capture is still fresh at the last moment of
   * the wait and at the end of each rung the post leaves during it.
   */
  lemma EtaHoldsExactly(published: int, rows: seq<Snapshot>, excluded: set<string>, now: int)
    requires LastCaptured(rows, {}).Some? && PostFreshness(false, Some(published), rows, now).1.Some?
    ensures var eta := PostFreshness(false, Some(published), rows, now).1.value;
      (forall later | now <= later < eta :: !CadenceDue(Some(published), rows, excluded, later)) <==>
      (forall m | m in LastMoments(published, eta) && now <= m < eta ::
        StillFresh(LastCaptured(rows, excluded), published, m))
  {
    var eta := PostFreshness(false, Some(published), rows, now).1.value;
    var counted := LastCaptured(rows, excluded);
    forall later ensures CadenceDue(Some(published), rows, excluded, later) <==>
      !StillFresh(counted, published, later) {}
    if forall m | m in LastMoments(published, eta) && now <= m < eta :: StillFresh(counted, published, m) {
      forall later | now <= later < eta ensures StillFresh(counted, published, later) {
        var m := RungEndDecides(counted, published, eta, later);
      }
    }
  }

  /** As long as the post stays on its rung, that means: the newest counted capture is the newest of all. */
  lemma EtaHoldsIfCountedIsNewest(published: int, rows: seq<Snapshot>, excluded: set<string>, now: int)
    requires LastCaptured(rows, {}).Some? && PostFreshness(false, Some(published), rows, now).1.Some?
    requires var eta := PostFreshness(false, Some(published), rows, now).1.value;
      now < eta && Interval(eta - 1 - published) == Interval(now - published)
    ensures var eta := PostFreshness(false, Some(published), rows, now).1.value;
      (forall later | now <= later < eta :: !CadenceDue(Some(published), rows, excluded, later)) <==>
      LastCaptured(rows, excluded) == LastCaptured(rows, {})
  {
    var eta := PostFreshness(false, Some(published), rows, now).1.value;
    CountedIsOlder(rows, excluded);
    if LastCaptured(rows, excluded) == LastCaptured(rows, {}) {
      forall later | now <= later < eta ensures !CadenceDue(Some(published), rows, excluded, later) {
        NotDueBeforeEta(published, rows, now, later);
      }
    } else {
      assert CadenceDue(Some(published), rows, excluded, eta - 1);
    }
  }

  lemma {:induction false} CountedIsOlder(rows: seq<Snapshot>, excluded: set<string>)
    ensures LastCaptured(rows, excluded).Some? ==>
              LastCaptured(rows, {}).Some? && LastCaptured(rows, excluded).value <= LastCaptured(rows, {}).value
  {
    if rows == [] {
    } else {
      CountedIsOlder(rows[..|rows| - 1], excluded);
    }
  }

  // ----- the sync loop's own age limit

  /** The loop only looks at posts inside the platform's backfill window; zero days means none. */
  predicate LoopSyncs(capDays: nat, published: int, rows: seq<Snapshot>, excluded: set<string>, now: int) {
    capDays != 0 && now - published <= capDays * DAY && CadenceDue(Some(published), rows, excluded, now)
  }

  /**
   * A time is announced for posts that the loop no longer visits exactly between the platform's
   * window and the 90-day stop; a 60-day window leaves such a gap, and so does one of zero days,
   * which means that the platform's posts are never visited.
   */
  lemma AnnouncedButNeverSynced(capDays: nat, published: int, rows: seq<Snapshot>, now: int)
    ensures (PostFreshness(false, Some(published), rows, now).1.Some? &&
             forall later, rowsLater, excluded | now <= later ::
               !LoopSyncs(capDays, published, rowsLater, excluded, later)) <==>
            (capDays == 0 || capDays * DAY < now - published) && now - published < 90 * DAY
  {
    if capDays != 0 && !(capDays * DAY < now - published) && now - published < 90 * DAY {
      assert LastCaptured([], {}).None?;
      assert LoopSyncs(capDays, published, [], {}, now);
    }
  }

  // ----- how many syncs one post can have

  /** The due checks of one post that led to a sync, and when each wrote its snapshot. */
  datatype Sync = Sync(at: int, captured: int)

  ghost predicate SyncRun(published: int, syncs: seq<Sync>) {
    && (forall i | 0 <= i < |syncs| :: published <= syncs[i].at <= syncs[i].captured)
    && (forall i | 0 <= i < |syncs| :: Interval(syncs[i].at - published).Some?)
    && forall i | 0 < i < |syncs| ::
         syncs[i].at - syncs[i - 1].captured >= Interval(syncs[i].at - published).value
  }

  /** The most syncs a post can have had by an age. */
  function MostBy(age: int): int {
    if age < 23 * HOUR then age / HOUR + 1
    else if age < 167 * HOUR then 24 + (age - 23 * HOUR) / (6 * HOUR)
    else if age < 719 * HOUR then 48 + (age - 167 * HOUR) / DAY
    else 71 + (age - 719 * HOUR) / (7 * DAY)
  }

  lemma MostGrows(a: int, b: int)
    requires 0 <= a <= b
    ensures 1 <= MostBy(a) <= MostBy(b)
  {}

  lemma OneHourMore(age: int)
    requires HOUR <= age < DAY
    ensures MostBy(age - HOUR) + 1 <= MostBy(age)
  {}

  lemma SixHoursMore(age: int)
    requires DAY <= age < 7 * DAY
    ensures MostBy(age - 6 * HOUR) + 1 <= MostBy(age)
  {}

  lemma OneDayMore(age: int)
    requires 7 * DAY <= age < 30 * DAY
    ensures MostBy(age - DAY) + 1 <= MostBy(age)
  {}

  lemma OneWeekMore(age: int)
    requires 30 * DAY <= age < 90 * DAY
    ensures MostBy(age - 7 * DAY) + 1 <= MostBy(age)
  {}

  lemma OneIntervalOneMore(before: int, age: int)
    requires 0 <= before && Interval(age).Some? && before + Interval(age).value <= age
    ensures MostBy(before) + 1 <= MostBy(age)
  {
    MostGrows(before, age - Interval(age).value);
    if age < DAY {
      OneHourMore(age);
    } else if age < 7 * DAY {
      SixHoursMore(age);
    } else if age < 30 * DAY {
      OneDayMore(age);
    } else {
      OneWeekMore(age);
    }
  }

  /** Counting step: one more sync, one interval later. */
  lemma NextSync(count: nat, at: int, captured: int, age: int)
    requires 0 <= at <= captured && count <= MostBy(at)
    requires Interval(age).Some? && captured + Interval(age).value <= age
    ensures count + 1 <= MostBy(age)
  {
    MostGrows(at, captured);
    OneIntervalOneMore(captured, age);
  }

  lemma {:induction false} SyncsBy(published: int, syncs: seq<Sync>)
    requires SyncRun(published, syncs) && syncs != []
    ensures |syncs| <= MostBy(syncs[|syncs| - 1].at - published)
  {
    var n := |syncs| - 1;
    if n > 0 {
      SyncsBy(published, syncs[..n]);
      NextSync(n, syncs[n - 1].at - published, syncs[n - 1].captured - published, syncs[n].at - published);
    } else {
      MostGrows(0, syncs[0].at - published);
    }
  }

  /** No post is ever synced more than 79 times by the cadence. */
  lemma AtMost79Syncs(published: int, syncs: seq<Sync>)
    requires SyncRun(published, syncs)
    ensures |syncs| <= 79
  {
    if syncs != [] { SyncsBy(published, syncs); }
  }

  /** The busiest schedule, in hours of age. */
  function BusiestHour(i: nat): int {
    if i < 24 then i
    else if i < 48 then 23 + 6 * (i - 23)
    else if i < 71 then 167 + 24 * (i - 47)
    else 719 + 168 * (i - 70)
  }

  /** Seventy-nine are possible. */
  lemma SeventyNineArePossible(published: int)
    ensures var syncs := seq(79, i requires 0 <= i < 79 =>
        Sync(published + BusiestHour(i) * HOUR, published + BusiestHour(i) * HOUR));
      SyncRun(published, syncs) && |syncs| == 79
  {}

  // ----- the same in the fields of the snapshots, in microseconds

  /** The newest capture of a metric that is not excluded, if there is such a row. */
  lemma {:induction false} LastCapturedIsNewest(rows: seq<Snapshot>, excluded: set<string>)
    ensures var last := LastCaptured(rows, excluded);
      && (last.None? <==> forall r | r in rows :: r.metric in excluded)
      && (last.Some? ==> exists r :: r in rows && r.metric !in excluded && r.captured == last.value)
      && forall r | r in rows && r.metric !in excluded :: last.Some? && r.captured <= last.value
  {
    if rows == [] {
    } else {
      var front, r := rows[..|rows| - 1], rows[|rows| - 1];
      assert rows == front + [r] && r in rows;
      LastCapturedIsNewest(front, excluded);
      if x :| x in front && x.metric !in excluded && Some(x.captured) == LastCaptured(front, excluded) {
        assert x in rows;
      }
    }
  }

  /** An hour on the first day, six in the first week, a day in the first month, a week until day 90. */
  ghost function Wait(age: int): int {
    if age < 86_400_000_000 then 3_600_000_000
    else if age < 604_800_000_000 then 21_600_000_000
    else if age < 2_592_000_000_000 then 86_400_000_000
    else 604_800_000_000
  }

  /** A published post is due before day 90 when every counted capture is at least the wait of its age old. */
  lemma DueExactly(published: Option<int>, rows: seq<Snapshot>, excluded: set<string>, now: int)
    ensures CadenceDue(published, rows, excluded, now) <==>
            exists p :: published == Some(p) && now - p < 7_776_000_000_000 &&
              forall r | r in rows && r.metric !in excluded :: now - r.captured >= Wait(now - p)
  {
    LastCapturedIsNewest(rows, excluded);
    if published.Some? && LastCaptured(rows, excluded).Some? {
      var r :| r in rows && r.metric !in excluded && r.captured == LastCaptured(rows, excluded).value;
    }
  }

  /**
   * The announcement: the newest capture of all, and the wait of the post's age after it, or five
   * minutes from now while there is none; no time from day 90 on, and nothing for a post that is
   * not published or has no analytics.
   */
  lemma AnnouncedExactly(noAnalytics: bool, published: Option<int>, rows: seq<Snapshot>, now: int)
    ensures var (last, eta) := PostFreshness(noAnalytics, published, rows, now);
      if noAnalytics || published.None? then last.None? && eta.None?
      else
        && (last.None? <==> rows == [])
        && (last.Some? ==> exists r :: r in rows && r.captured == last.value)
        && (forall r | r in rows :: last.Some? && r.captured <= last.value)
        && (eta.Some? <==> now - published.value < 7_776_000_000_000)
        && (eta.Some? ==>
             eta.value == if last.Some? then last.value + Wait(now - published.value) else now + 300_000_000)
  {
    LastCapturedIsNewest(rows, {});
    assert rows != [] ==> rows[0] in rows;
  }
}
