/** One channel with a midnight slot every day, in a zone without daylight saving, at the start of some day n. */
module QueueExample {
  import opened Prelude
  import opened PostingSlots
  import opened Availability
  import opened ScheduleStore
  import opened QueueOps
  import opened SchedulerRuns

  function Midnight(d: LocalDate): Instant { d * DAY_SECONDS }

  function Daily(): Calendar {
    Calendar(FixedZone(0), seq(7, i => Slot(i, 0)))
  }

  lemma DailyIsWellFormed()
    ensures WellFormed(Daily())
  {
    FixedZoneIsWellFormed(0, Daily().slots);
  }

  /** The upcoming slots are the midnights of the next 59 days. */
  lemma DailyMembers(n: LocalDate, x: Instant)
    ensures x in Upcoming(Daily(), Midnight(n)) <==> exists d :: n < d < n + 60 && x == Midnight(d)
  {
    var cal, now := Daily(), Midnight(n);
    UpcomingMembers(cal, now, x);
    assert cal.zone.localDate(now) == n;
    if d :| n < d < n + 60 && x == Midnight(d) {
      assert IsOccurrence(cal, x, d, Weekday(d));
    }
    if x in Upcoming(cal, now) {
      var d, i :| 0 <= d - n < HORIZON_DAYS && IsOccurrence(cal, x, d, i);
      assert x == Midnight(d);
    }
  }

  lemma {:induction false} KthDay(n: LocalDate, all: seq<Instant>, k: nat)
    requires all == Upcoming(Daily(), Midnight(n)) && Ascending(all) && k < 59
    ensures k < |all| && all[k] == Midnight(n + k + 1)
  {
    DailyMembers(n, Midnight(n + k + 1));
    var j :| 0 <= j < |all| && all[j] == Midnight(n + k + 1);
    if k > 0 { KthDay(n, all, k - 1); }
    assert j >= k;
    DailyMembers(n, all[k]);
  }

  // Post 1 waits in the queue for tomorrow, post 2 was scheduled by hand for the day after,
  // post 9 was published yesterday.
  function Rows(n: LocalDate): map<ChildKey, PlatformPost> {
    map[ChildKey(1, 0) := PlatformPost(Scheduled, Some(Midnight(n + 1)), None),
        ChildKey(2, 0) := PlatformPost(Scheduled, Some(Midnight(n + 2)), None),
        ChildKey(9, 0) := PlatformPost(Published, Some(Midnight(n - 1)), Some(Midnight(n - 1)))]
  }

  function OneChannel(): Config { Config(q => 0, a => Daily()) }

  function Before(n: LocalDate): Db {
    Db(Rows(n), map[EntryKey(0, 1) := QueueEntry(1, Some(Midnight(n + 1)))], map[])
  }

  /** The ladder of prioritizing post 9, over any candidates that begin with the next three midnights. */
  function Climb(n: LocalDate, all: seq<Instant>): Ladder {
    Ladder(Before(n), 0, 0, 9, Midnight(n), all)
  }

  lemma ExampleLadder(n: LocalDate, all: seq<Instant>)
    requires |all| >= 3 && all[0] == Midnight(n + 1)
    ensures var l := Climb(n, all);
      && l.Movable() == {1} && l.Movers() == {1} && l.Held(1) == Midnight(n + 1)
      && l.NeedsLadder() && l.Fixed() == {Midnight(n + 2)}
  {
    var l := Climb(n, all);
    forall p ensures p in l.Movable() <==> p == 1 {
      if p == 1 { assert EntryKey(0, 1) in l.db.entries && ChildKey(1, 0) in l.db.children; }
    }
    assert l.Movable() == {1};
    assert l.Held(1) == Midnight(n + 1) && l.HeldBy({1}) == {Midnight(n + 1)};
    assert Take(all, 3)[0] == all[0];
    assert l.Movers() == {1};
    assert l.Occupied() == {Midnight(n + 1), Midnight(n + 2)} by {
      assert ChildKey(1, 0) in l.db.children && ChildKey(2, 0) in l.db.children;
    }
  }

  /** The post scheduled by hand makes post 1 skip a slot: from the first it goes to the third, not the second. */
  lemma BlockedSlotIsSkipped(n: LocalDate)
    ensures var l := LadderOf(OneChannel(), Before(n), 9, 0, Midnight(n));
      && l.NeedsLadder() && l.Fits() && l.Movers() == {1} && |l.all| >= 3
      && l.Held(1) == l.all[0] && l.NextRung(1) == Some(l.all[2]) && l.all[1] != l.all[2]
      && l.all[0] == Midnight(n + 1) && l.all[2] == Midnight(n + 3)
  {
    var all := Upcoming(Daily(), Midnight(n));
    FirstThree(n, all);
    ExampleLadder(n, all);
    SecondIsSkipped(n, all);
  }

  lemma FirstThree(n: LocalDate, all: seq<Instant>)
    requires all == Upcoming(Daily(), Midnight(n))
    ensures Ascending(all) && |all| >= 3
    ensures all[0] == Midnight(n + 1) && all[1] == Midnight(n + 2) && all[2] == Midnight(n + 3)
  {
    DailyIsWellFormed();
    UpcomingAscends(Daily(), Midnight(n));
    KthDay(n, all, 0);
    KthDay(n, all, 1);
    KthDay(n, all, 2);
  }

  lemma SecondIsSkipped(n: LocalDate, all: seq<Instant>)
    requires Ascending(all) && |all| >= 3
    requires all[0] == Midnight(n + 1) && all[1] == Midnight(n + 2) && all[2] == Midnight(n + 3)
    ensures FirstFreeAfter(all, Midnight(n + 1), {Midnight(n + 2)}) == Some(Midnight(n + 3))
  {
    forall y | y in all && Midnight(n + 1) < y < Midnight(n + 3) ensures y == Midnight(n + 2) {
      var i :| 0 <= i < |all| && all[i] == y;
      assert 0 < i < 2;
    }
    FirstFreeAfterIs(all, Midnight(n + 1), {Midnight(n + 2)}, Some(Midnight(n + 3)));
  }

  /** And prioritizing post 9, already published, moves its schedule from yesterday to tomorrow. */
  lemma PublishedPostIsRewritten(n: LocalDate)
    ensures var after := Step(OneChannel(), Before(n), Event(Prioritize(9, 0), Midnight(n))).children;
      && ChildKey(9, 0) in after && after[ChildKey(9, 0)] ==
           PlatformPost(Published, Some(Midnight(n + 1)), Some(Midnight(n - 1)))
      && ChildKey(1, 0) in after && after[ChildKey(1, 0)].scheduledAt == Some(Midnight(n + 3))
  {
    var l := LadderOf(OneChannel(), Before(n), 9, 0, Midnight(n));
    BlockedSlotIsSkipped(n);
    var plan := l.Plan();
    assert plan[9] == Midnight(n + 1) && plan[1] == Midnight(n + 3);
  }
}
