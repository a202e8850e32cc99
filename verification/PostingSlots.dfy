/** The weekly posting slots of a channel and the concrete instants they stand for. */
module PostingSlots {
  import opened Prelude

  /** A local date, as a proleptic day ordinal (day 1 is a Monday). */
  type LocalDate = int
  type Instant = int

  datatype Slot = Slot(dayOfWeek: int, time: int)

  /** A time zone: the instant of a wall-clock (date, time) and the local date of an instant. */
  datatype Zone = Zone(instant: (LocalDate, int) -> Instant, localDate: Instant -> LocalDate)

  /** The active slots of one channel, as the ordered query returns them, in its workspace zone. */
  datatype Calendar = Calendar(zone: Zone, slots: seq<Slot>)

  const HORIZON_DAYS: nat := 60

  function Weekday(d: LocalDate): int { (d + 6) % 7 }

  ghost predicate Before(a: Slot, b: Slot) {
    a.dayOfWeek < b.dayOfWeek || (a.dayOfWeek == b.dayOfWeek && a.time < b.time)
  }

  /** What the ordered, duplicate-free slot query guarantees. */
  ghost predicate SlotQuery(slots: seq<Slot>) {
    && (forall i | 0 <= i < |slots| :: 0 <= slots[i].dayOfWeek < 7)
    && (forall i, j | 0 <= i < j < |slots| :: Before(slots[i], slots[j]))
  }

  /** Outside a DST gap or fold, wall-clock order is instant order on slot times. */
  ghost predicate Monotone(cal: Calendar) {
    forall d1, d2, i, j | 0 <= i < |cal.slots| && 0 <= j < |cal.slots| &&
      (d1 < d2 || (d1 == d2 && cal.slots[i].time < cal.slots[j].time)) ::
      cal.zone.instant(d1, cal.slots[i].time) < cal.zone.instant(d2, cal.slots[j].time)
  }

  /** A slot on a later local date than an instant lies after that instant. */
  ghost predicate LaterDatesFollow(cal: Calendar) {
    forall x, d, i | 0 <= i < |cal.slots| && d > cal.zone.localDate(x) ::
      cal.zone.instant(d, cal.slots[i].time) > x
  }

  ghost predicate WellFormed(cal: Calendar) {
    SlotQuery(cal.slots) && Monotone(cal) && LaterDatesFollow(cal)
  }

  const DAY_SECONDS: int := 24 * 60 * 60

  /** A zone at a fixed offset, in seconds east of UTC. */
  function FixedZone(offset: int): Zone {
    Zone((d, t) => d * DAY_SECONDS + t - offset, x => (x + offset) / DAY_SECONDS)
  }

  /** Without daylight saving, every slot list the query can return makes a well-formed calendar. */
  lemma FixedZoneIsWellFormed(offset: int, slots: seq<Slot>)
    requires SlotQuery(slots) && forall i | 0 <= i < |slots| :: 0 <= slots[i].time < DAY_SECONDS
    ensures WellFormed(Calendar(FixedZone(offset), slots))
  {
    var cal := Calendar(FixedZone(offset), slots);
    forall d1, d2, i, j | 0 <= i < |slots| && 0 <= j < |slots| &&
      (d1 < d2 || (d1 == d2 && slots[i].time < slots[j].time))
      ensures cal.zone.instant(d1, slots[i].time) < cal.zone.instant(d2, slots[j].time)
    {
      if d1 < d2 { assert d1 * DAY_SECONDS + DAY_SECONDS <= d2 * DAY_SECONDS; }
    }
    forall x, d, i | 0 <= i < |slots| && d > cal.zone.localDate(x) ensures cal.zone.instant(d, slots[i].time) > x {}
  }

  /** The instants of the given slots on date d that lie after `after`, in slot order. */
  function OnDate(cal: Calendar, slots: seq<Slot>, d: LocalDate, after: Instant): seq<Instant> {
    if slots == [] then []
    else
      var x := cal.zone.instant(d, slots[0].time);
      (if slots[0].dayOfWeek == Weekday(d) && x > after then [x] else []) + OnDate(cal, slots[1..], d, after)
  }

  /** The slot instants after `after` on the dates from d up to, not including, end. */
  function OnDates(cal: Calendar, d: LocalDate, end: LocalDate, after: Instant): seq<Instant>
    decreases end - d
  {
    if d >= end then [] else OnDate(cal, cal.slots, d, after) + OnDates(cal, d + 1, end, after)
  }

  /** Every slot instant after `after` within the horizon. */
  function Upcoming(cal: Calendar, after: Instant): seq<Instant> {
    OnDates(cal, cal.zone.localDate(after), cal.zone.localDate(after) + HORIZON_DAYS, after)
  }

  ghost predicate IsOccurrence(cal: Calendar, x: Instant, d: LocalDate, i: int) {
    0 <= i < |cal.slots| && cal.slots[i].dayOfWeek == Weekday(d) && x == cal.zone.instant(d, cal.slots[i].time)
  }

  /** The inner loop of the walk: appends one date's slots, and stops when the count is reached. */
  method WalkDate(cal: Calendar, before: seq<Instant>, checkDate: LocalDate, after: Instant, count: int)
    returns (results: seq<Instant>, done: bool)
    requires before == [] || |before| < count
    ensures done ==> results <= before + OnDate(cal, cal.slots, checkDate, after) && |results| == Max(count, 1)
    ensures !done ==> results == before + OnDate(cal, cal.slots, checkDate, after)
    ensures !done ==> results == [] || |results| < count
  {
    results := before;
    ghost var all, rest := before + OnDate(cal, cal.slots, checkDate, after), OnDate(cal, cal.slots, checkDate, after);
    assert cal.slots[0..] == cal.slots;
    var i := 0;
    while i < |cal.slots|
      invariant 0 <= i <= |cal.slots|
      invariant rest == OnDate(cal, cal.slots[i..], checkDate, after)
      invariant all == results + rest
      invariant results == [] || |results| < count
    {
      var slot := cal.slots[i];
      var x := cal.zone.instant(checkDate, slot.time);
      OnDateStep(cal, i, checkDate, after);
      rest := OnDate(cal, cal.slots[i + 1..], checkDate, after);
      if slot.dayOfWeek == Weekday(checkDate) && x > after {
        results := results + [x];
        if |results| >= count {
          return results, true;
        }
      }
      i := i + 1;
    }
    return results, false;
  }

  /**
   * The bounded walk over the horizon. It appends before it tests, so a count below one
   * still yields the first slot.
   */
  method NextSlotDatetimes(cal: Calendar, after: Instant, count: int) returns (results: seq<Instant>)
    ensures results == Take(Upcoming(cal, after), Max(count, 1))
  {
    results := [];
    var currentDate := cal.zone.localDate(after);
    ghost var end := currentDate + HORIZON_DAYS;
    if cal.slots == [] {
      NoSlotsNoDates(cal, currentDate, end, after);
      return;
    }
    var dayOffset := 0;
    while dayOffset < HORIZON_DAYS
      invariant 0 <= dayOffset <= HORIZON_DAYS
      invariant results == OnDates(cal, currentDate, currentDate + dayOffset, after)
      invariant results == [] || |results| < count
    {
      var checkDate := currentDate + dayOffset;
      var done;
      results, done := WalkDate(cal, results, checkDate, after, count);
      if done {
        WalkStops(cal, currentDate, checkDate, end, after, results, Max(count, 1));
        return;
      }
      OnDatesSnoc(cal, currentDate, checkDate, after);
      dayOffset := dayOffset + 1;
    }
    TakenFrom(OnDates(cal, currentDate, end, after), results, Max(count, 1));
  }

  lemma {:induction false} OnDatesSnoc(cal: Calendar, d: LocalDate, mid: LocalDate, after: Instant)
    requires d <= mid
    ensures OnDates(cal, d, mid + 1, after) == OnDates(cal, d, mid, after) + OnDate(cal, cal.slots, mid, after)
    decreases mid - d
  {
    if d < mid {
      OnDatesSnoc(cal, d + 1, mid, after);
    } else {
      assert OnDates(cal, d + 1, d + 1, after) == [];
    }
  }

  lemma {:induction false} OnDatesPrefix(cal: Calendar, d: LocalDate, mid: LocalDate, end: LocalDate, after: Instant)
    requires d <= mid <= end
    ensures OnDates(cal, d, mid, after) <= OnDates(cal, d, end, after)
    decreases mid - d
  {
    if mid <= d {
    } else {
      OnDatesPrefix(cal, d + 1, mid, end, after);
    }
  }

  /** A walk that stops within date mid has the first n instants of the whole range. */
  lemma WalkStops(cal: Calendar, d: LocalDate, mid: LocalDate, end: LocalDate, after: Instant, results: seq<Instant>,
                  n: nat)
    requires d <= mid < end && |results| == n
    requires results <= OnDates(cal, d, mid, after) + OnDate(cal, cal.slots, mid, after)
    ensures results == Take(OnDates(cal, d, end, after), n)
  {
    OnDatesSnoc(cal, d, mid, after);
    OnDatesPrefix(cal, d, mid + 1, end, after);
    TakenFrom(OnDates(cal, d, end, after), results, n);
  }

  lemma TakenFrom(all: seq<Instant>, results: seq<Instant>, n: nat)
    requires results <= all
    requires |results| == n || (results == all && |all| <= n)
    ensures results == Take(all, n)
  {}

  lemma OnDateStep(cal: Calendar, i: nat, d: LocalDate, after: Instant)
    requires i < |cal.slots|
    ensures var x, tail := cal.zone.instant(d, cal.slots[i].time), OnDate(cal, cal.slots[i + 1..], d, after);
      OnDate(cal, cal.slots[i..], d, after) ==
        if cal.slots[i].dayOfWeek == Weekday(d) && x > after then [x] + tail else tail
  {}

  lemma {:induction false} NoSlotsNoDates(cal: Calendar, d: LocalDate, end: LocalDate, after: Instant)
    requires cal.slots == []
    ensures OnDates(cal, d, end, after) == []
    decreases end - d
  {
    if end <= d {
    } else {
      NoSlotsNoDates(cal, d + 1, end, after);
    }
  }

  lemma {:induction false} OnDateMembers(cal: Calendar, slots: seq<Slot>, d: LocalDate, after: Instant, x: Instant)
    ensures x in OnDate(cal, slots, d, after) <==>
            x > after && exists i :: 0 <= i < |slots| && slots[i].dayOfWeek == Weekday(d) &&
                                     x == cal.zone.instant(d, slots[i].time)
  {
    if slots == [] {
    } else {
      OnDateMembers(cal, slots[1..], d, after, x);
      if x in OnDate(cal, slots[1..], d, after) {
        var i :| 0 <= i < |slots[1..]| && slots[1..][i].dayOfWeek == Weekday(d) &&
                 x == cal.zone.instant(d, slots[1..][i].time);
        assert slots[i + 1] == slots[1..][i];
      }
      if i :| 0 <= i < |slots| && slots[i].dayOfWeek == Weekday(d) && x == cal.zone.instant(d, slots[i].time) {
        if i > 0 { assert slots[1..][i - 1] == slots[i]; }
      }
    }
  }

  lemma {:induction false} OnDatesMembers(cal: Calendar, d: LocalDate, end: LocalDate, after: Instant, x: Instant)
    ensures x in OnDates(cal, d, end, after) <==>
            x > after && exists e, i :: d <= e < end && IsOccurrence(cal, x, e, i)
    decreases end - d
  {
    if end <= d {
    } else {
      OnDateMembers(cal, cal.slots, d, after, x);
      OnDatesMembers(cal, d + 1, end, after, x);
      if x in OnDate(cal, cal.slots, d, after) {
        var i :| 0 <= i < |cal.slots| && cal.slots[i].dayOfWeek == Weekday(d) &&
                 x == cal.zone.instant(d, cal.slots[i].time);
        assert IsOccurrence(cal, x, d, i);
      }
    }
  }

  /** Upcoming misses no slot occurrence of the horizon and invents none. */
  lemma UpcomingMembers(cal: Calendar, after: Instant, x: Instant)
    ensures x in Upcoming(cal, after) <==>
            x > after && exists d, i :: 0 <= d - cal.zone.localDate(after) < 60 && IsOccurrence(cal, x, d, i)
  {
    var d0 := cal.zone.localDate(after);
    OnDatesMembers(cal, d0, d0 + HORIZON_DAYS, after, x);
  }

  lemma {:induction false} OnDateAscends(cal: Calendar, k: nat, d: LocalDate, after: Instant)
    requires WellFormed(cal) && k <= |cal.slots|
    ensures Ascending(OnDate(cal, cal.slots[k..], d, after))
    decreases |cal.slots| - k
  {
    if |cal.slots| <= k {
    } else {
      var tail := OnDate(cal, cal.slots[k + 1..], d, after);
      OnDateAscends(cal, k + 1, d, after);
      assert cal.slots[k..][1..] == cal.slots[k + 1..];
      var x := cal.zone.instant(d, cal.slots[k].time);
      if cal.slots[k].dayOfWeek == Weekday(d) {
        forall j | 0 <= j < |tail| ensures x < tail[j] {
          OnDateMembers(cal, cal.slots[k + 1..], d, after, tail[j]);
          var i :| 0 <= i < |cal.slots[k + 1..]| && cal.slots[k + 1..][i].dayOfWeek == Weekday(d) &&
                   tail[j] == cal.zone.instant(d, cal.slots[k + 1..][i].time);
          assert Before(cal.slots[k], cal.slots[k + 1 + i]);
        }
      }
    }
  }

  lemma {:induction false} OnDatesAscend(cal: Calendar, d: LocalDate, end: LocalDate, after: Instant)
    requires WellFormed(cal)
    ensures Ascending(OnDates(cal, d, end, after))
    decreases end - d
  {
    if end <= d {
    } else {
      var today, later := OnDate(cal, cal.slots, d, after), OnDates(cal, d + 1, end, after);
      OnDateAscends(cal, 0, d, after);
      assert cal.slots[0..] == cal.slots;
      OnDatesAscend(cal, d + 1, end, after);
      forall a, b | 0 <= a < |today| && 0 <= b < |later| ensures today[a] < later[b] {
        OnDateMembers(cal, cal.slots, d, after, today[a]);
        OnDatesMembers(cal, d + 1, end, after, later[b]);
        var e, i :| d + 1 <= e < end && IsOccurrence(cal, later[b], e, i);
      }
    }
  }

  /** The horizon's slot instants are strictly increasing, so a smaller count gives a prefix of a larger one. */
  lemma UpcomingAscends(cal: Calendar, after: Instant)
    requires WellFormed(cal)
    ensures Ascending(Upcoming(cal, after))
    ensures forall x | x in Upcoming(cal, after) :: x > after
  {
    OnDatesAscend(cal, cal.zone.localDate(after), cal.zone.localDate(after) + HORIZON_DAYS, after);
    forall x | x in Upcoming(cal, after) ensures x > after {
      UpcomingMembers(cal, after, x);
    }
  }

  lemma TakePrefixes<T>(s: seq<T>, m: nat, n: nat)
    requires m <= n
    ensures Take(s, m) <= Take(s, n) <= s
    ensures Take(s, m) == Take(Take(s, n), m)
  {}

  // ----- every active slot recurs at least eight times in the horizon

  /** The first date after `after`'s local date on which the slot falls. */
  function FirstDate(cal: Calendar, after: Instant, slot: Slot): (d: LocalDate)
    requires 0 <= slot.dayOfWeek < 7
    ensures 1 <= d - cal.zone.localDate(after) <= 7 && Weekday(d) == slot.dayOfWeek
  {
    var d0 := cal.zone.localDate(after) + 1;
    d0 + (slot.dayOfWeek - Weekday(d0)) % 7
  }

  lemma EachSlotRecursEightTimes(cal: Calendar, after: Instant, i: int, week: int)
    requires WellFormed(cal) && 0 <= i < |cal.slots| && 0 <= week < 8
    ensures cal.zone.instant(FirstDate(cal, after, cal.slots[i]) + 7 * week, cal.slots[i].time) in Upcoming(cal, after)
  {
    var d := FirstDate(cal, after, cal.slots[i]) + 7 * week;
    var x := cal.zone.instant(d, cal.slots[i].time);
    assert IsOccurrence(cal, x, d, i);
    UpcomingMembers(cal, after, x);
  }

  /** The first eight occurrences of each of the first n slots, by slot and week. */
  function Occurrences(cal: Calendar, after: Instant, n: nat): (occ: seq<Instant>)
    requires SlotQuery(cal.slots) && n <= |cal.slots|
    ensures |occ| == 8 * n
    ensures forall k | 0 <= k < 8 * n ::
              occ[k] == cal.zone.instant(FirstDate(cal, after, cal.slots[k / 8]) + 7 * (k % 8), cal.slots[k / 8].time)
  {
    seq(8 * n, k requires 0 <= k < 8 * n =>
      cal.zone.instant(FirstDate(cal, after, cal.slots[k / 8]) + 7 * (k % 8), cal.slots[k / 8].time))
  }

  lemma OccurrencesDistinct(cal: Calendar, after: Instant, n: nat, a: nat, b: nat)
    requires WellFormed(cal) && n <= |cal.slots| && a < b < 8 * n
    ensures Occurrences(cal, after, n)[a] != Occurrences(cal, after, n)[b]
  {}

  /** So the horizon offers at least eight instants per active slot. */
  lemma UpcomingLowerBound(cal: Calendar, after: Instant)
    requires WellFormed(cal)
    ensures |Upcoming(cal, after)| >= 8 * |cal.slots|
  {
    var occ, all := Occurrences(cal, after, |cal.slots|), Upcoming(cal, after);
    forall k | 0 <= k < |occ| ensures occ[k] in all {
      EachSlotRecursEightTimes(cal, after, k / 8, k % 8);
    }
    forall a, b | 0 <= a < b < |occ| ensures occ[a] != occ[b] {
      OccurrencesDistinct(cal, after, |cal.slots|, a, b);
    }
    DistinctCardinality(occ);
    UpcomingAscends(cal, after);
    DistinctCardinality(all);
    SubsetCardinality(set x | x in occ, set x | x in all);
  }
}
