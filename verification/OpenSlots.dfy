/** The open posting slots that the calendar's day and week grids offer. */
module OpenSlots {
  import opened Prelude
  import opened PostingSlots
  import opened Availability
  import opened ScheduleStore

  /** The zone the grid is drawn in: the wall clock of an instant. */
  datatype Display = Display(localDate: Instant -> LocalDate, hour: Instant -> int, minute: Instant -> int)

  datatype ChannelSlot = ChannelSlot(account: int, slot: Slot)

  /** The active slots of the connected channels, in query order, and the dates drawn. */
  datatype Grid = Grid(workspace: Zone, display: Display, slots: seq<ChannelSlot>, visible: set<LocalDate>)

  /** A platform post with its own time, or else its parent's. */
  datatype CalendarPost = CalendarPost(account: int, effectiveAt: Option<Instant>)

  datatype SlotKey = SlotKey(account: int, date: LocalDate, hour: int, minute: int)

  datatype Occurrence = Occurrence(key: SlotKey, composeDate: LocalDate, composeTime: int, at: Instant, isPast: bool)

  function KeyAt(display: Display, account: int, x: Instant): SlotKey {
    SlotKey(account, display.localDate(x), display.hour(x), display.minute(x))
  }

  function OccurrenceOf(grid: Grid, s: ChannelSlot, d: LocalDate, now: Instant): Occurrence {
    var x := grid.workspace.instant(d, s.slot.time);
    Occurrence(KeyAt(grid.display, s.account, x), d, s.slot.time, x, x <= now)
  }

  // ----- the occurrences

  function DatesOn(weekday: int, first: LocalDate, end: LocalDate): seq<LocalDate>
    decreases end - first
  {
    if end <= first then []
    else DatesOn(weekday, first, end - 1) + if Weekday(end - 1) == weekday then [end - 1] else []
  }

  /** A slot's occurrences on some workspace dates, as far as they fall on a visible display date. */
  function SlotOccurrences(grid: Grid, s: ChannelSlot, dates: seq<LocalDate>, now: Instant): seq<Occurrence> {
    if dates == [] then [] else
      var o := OccurrenceOf(grid, s, dates[|dates| - 1], now);
      SlotOccurrences(grid, s, dates[..|dates| - 1], now) + if o.key.date in grid.visible then [o] else []
  }

  function AllOccurrences(
    grid: Grid, slots: seq<ChannelSlot>, first: LocalDate, end: LocalDate, now: Instant): seq<Occurrence>
  {
    if slots == [] then [] else
      var s := slots[|slots| - 1];
      AllOccurrences(grid, slots[..|slots| - 1], first, end, now) +
      SlotOccurrences(grid, s, DatesOn(s.slot.dayOfWeek, first, end), now)
  }

  /** Every occurrence from the day before the first visible date to the day after the last. */
  function Shown(grid: Grid, now: Instant): seq<Occurrence> {
    if grid.visible == {} then []
    else AllOccurrences(grid, grid.slots, MinOf(grid.visible) - 1, MaxOf(grid.visible) + 2, now)
  }

  function KeysOf(os: seq<Occurrence>): set<SlotKey> { set o | o in os :: o.key }

  predicate TakesSlot(grid: Grid, keys: set<SlotKey>, p: CalendarPost) {
    p.effectiveAt.Some? && KeyAt(grid.display, p.account, p.effectiveAt.value) in keys
  }

  function TakenKeys(grid: Grid, keys: set<SlotKey>, posts: seq<CalendarPost>): set<SlotKey> {
    set p | p in posts && TakesSlot(grid, keys, p) :: KeyAt(grid.display, p.account, p.effectiveAt.value)
  }

  function Untaken(os: seq<Occurrence>, taken: set<SlotKey>): seq<Occurrence> {
    if os == [] then [] else
      var o := os[|os| - 1];
      Untaken(os[..|os| - 1], taken) + if o.key in taken then [] else [o]
  }

  function Open(grid: Grid, posts: seq<CalendarPost>, now: Instant): seq<Occurrence> {
    var shown := Shown(grid, now);
    Untaken(shown, TakenKeys(grid, KeysOf(shown), posts))
  }

  /** What a dictionary of lists holds under a key; no list is an empty one. */
  function Listed<K, V>(m: map<K, seq<V>>, k: K): seq<V> { if k in m then m[k] else [] }

  type Cell = (LocalDate, int)

  /** The open occurrences of one cell of the grid. */
  function InCell(os: seq<Occurrence>, c: Cell): seq<Occurrence> {
    if os == [] then [] else
      var o := os[|os| - 1];
      InCell(os[..|os| - 1], c) + if (o.key.date, o.key.hour) == c then [o] else []
  }

  method GetCalendarSlotOccurrences(grid: Grid, posts: seq<CalendarPost>, now: Instant)
    returns (slotsByHour: map<Cell, seq<Occurrence>>, takes: seq<bool>)
    ensures forall c :: Listed(slotsByHour, c) == InCell(Open(grid, posts, now), c)
    ensures |takes| == |posts| && forall i | 0 <= i < |posts| ::
      takes[i] == TakesSlot(grid, KeysOf(Shown(grid, now)), posts[i])
  {
    slotsByHour := map[];
    takes := [];
    var occurrences: seq<Occurrence> := [];
    if grid.visible != {} {
      occurrences := CollectOccurrences(grid, MinOf(grid.visible) - 1, MaxOf(grid.visible) + 2, now);
    }
    assert occurrences == Shown(grid, now);
    var slotKeys := KeysOf(occurrences);
    var takenKeys;
    takenKeys, takes := MarkPosts(grid, slotKeys, posts);
    slotsByHour := GroupOpen(occurrences, takenKeys);
    assert Open(grid, posts, now) == Untaken(occurrences, takenKeys);
  }

  /** Which posts take a slot, and which keys are thereby taken. */
  method MarkPosts(grid: Grid, slotKeys: set<SlotKey>, posts: seq<CalendarPost>)
    returns (takenKeys: set<SlotKey>, takes: seq<bool>)
    ensures takenKeys == TakenKeys(grid, slotKeys, posts)
    ensures |takes| == |posts| && forall i | 0 <= i < |posts| :: takes[i] == TakesSlot(grid, slotKeys, posts[i])
  {
    takenKeys, takes := {}, [];
    for i := 0 to |posts|
      invariant takenKeys == TakenKeys(grid, slotKeys, posts[..i])
      invariant |takes| == i && forall j | 0 <= j < i :: takes[j] == TakesSlot(grid, slotKeys, posts[j])
    {
      assert posts[..i + 1] == posts[..i] + [posts[i]];
      var marked := false;
      if posts[i].effectiveAt.Some? {
        var key := KeyAt(grid.display, posts[i].account, posts[i].effectiveAt.value);
        if key in slotKeys {
          marked := true;
          takenKeys := takenKeys + {key};
        }
      }
      takes := takes + [marked];
    }
    assert posts[..|posts|] == posts;
  }

  method GroupOpen(occurrences: seq<Occurrence>, taken: set<SlotKey>) returns (slotsByHour: map<Cell, seq<Occurrence>>)
    ensures forall c :: Listed(slotsByHour, c) == InCell(Untaken(occurrences, taken), c)
  {
    slotsByHour := map[];
    ghost var open: seq<Occurrence> := [];
    for i := 0 to |occurrences|
      invariant open == Untaken(occurrences[..i], taken)
      invariant forall c :: Listed(slotsByHour, c) == InCell(open, c)
    {
      var o := occurrences[i];
      UntakenSnoc(occurrences[..i], o, taken);
      assert occurrences[..i + 1] == occurrences[..i] + [o];
      if o.key !in taken {
        var c := (o.key.date, o.key.hour);
        slotsByHour := slotsByHour[c := Listed(slotsByHour, c) + [o]];
        open := open + [o];
      }
    }
    assert occurrences[..|occurrences|] == occurrences;
  }

  lemma UntakenSnoc(os: seq<Occurrence>, o: Occurrence, taken: set<SlotKey>)
    ensures Untaken(os + [o], taken) == Untaken(os, taken) + if o.key in taken then [] else [o]
    ensures forall c :: InCell(Untaken(os, taken) + [o], c) ==
              InCell(Untaken(os, taken), c) + if (o.key.date, o.key.hour) == c then [o] else []
  {}

  lemma AllSnoc(grid: Grid, slots: seq<ChannelSlot>, s: ChannelSlot, first: LocalDate, end: LocalDate, now: Instant)
    ensures AllOccurrences(grid, slots + [s], first, end, now) ==
            AllOccurrences(grid, slots, first, end, now) +
            SlotOccurrences(grid, s, DatesOn(s.slot.dayOfWeek, first, end), now)
  {}

  method CollectOccurrences(grid: Grid, first: LocalDate, end: LocalDate, now: Instant) returns (os: seq<Occurrence>)
    requires first < end
    ensures os == AllOccurrences(grid, grid.slots, first, end, now)
  {
    var datesByWeekday := GroupByWeekday(first, end);
    os := [];
    for i := 0 to |grid.slots|
      invariant os == AllOccurrences(grid, grid.slots[..i], first, end, now)
    {
      var s := grid.slots[i];
      assert grid.slots[..i + 1] == grid.slots[..i] + [s];
      AllSnoc(grid, grid.slots[..i], s, first, end, now);
      var dates := Listed(datesByWeekday, s.slot.dayOfWeek);
      assert dates == DatesOn(s.slot.dayOfWeek, first, end);
      os := CollectSlot(grid, s, dates, now, os);
    }
    assert grid.slots[..|grid.slots|] == grid.slots;
  }

  /** The inner loop: one slot's dates. */
  method CollectSlot(grid: Grid, s: ChannelSlot, dates: seq<LocalDate>, now: Instant, before: seq<Occurrence>)
    returns (os: seq<Occurrence>)
    ensures os == before + SlotOccurrences(grid, s, dates, now)
  {
    os := before;
    for j := 0 to |dates|
      invariant os == before + SlotOccurrences(grid, s, dates[..j], now)
    {
      assert dates[..j + 1][..j] == dates[..j] && dates[..j + 1][j] == dates[j];
      var o := OccurrenceOf(grid, s, dates[j], now);
      if o.key.date in grid.visible {
        os := os + [o];
      }
    }
    assert dates[..|dates|] == dates;
  }

  method GroupByWeekday(first: LocalDate, end: LocalDate) returns (m: map<int, seq<LocalDate>>)
    requires first < end
    ensures forall w :: Listed(m, w) == DatesOn(w, first, end)
  {
    m := map[];
    for d := first to end
      invariant forall w :: Listed(m, w) == DatesOn(w, first, d)
    {
      m := m[Weekday(d) := Listed(m, Weekday(d)) + [d]];
    }
  }

  // ----- which occurrences are shown

  lemma {:induction false} DatesOnMembers(weekday: int, first: LocalDate, end: LocalDate, d: LocalDate)
    ensures d in DatesOn(weekday, first, end) <==> first <= d < end && Weekday(d) == weekday
    decreases end - first
  {
    if end <= first {
    } else {
      DatesOnMembers(weekday, first, end - 1, d);
    }
  }

  lemma {:induction false} SlotOccurrenceMembers(grid: Grid, s: ChannelSlot, dates: seq<LocalDate>, now: Instant,
                                                 o: Occurrence)
    ensures o in SlotOccurrences(grid, s, dates, now) <==>
            o.key.date in grid.visible && exists d :: d in dates && o == OccurrenceOf(grid, s, d, now)
  {
    if dates == [] {
    } else {
      var n := |dates| - 1;
      assert dates == dates[..n] + [dates[n]];
      SlotOccurrenceMembers(grid, s, dates[..n], now, o);
    }
  }

  ghost predicate Occurs(grid: Grid, s: ChannelSlot, d: LocalDate, now: Instant, o: Occurrence) {
    s in grid.slots && Weekday(d) == s.slot.dayOfWeek && o == OccurrenceOf(grid, s, d, now) &&
      o.key.date in grid.visible
  }

  lemma {:induction false} OccurrenceMembers(
    grid: Grid, slots: seq<ChannelSlot>, first: LocalDate, end: LocalDate, now: Instant, o: Occurrence)
    requires forall s | s in slots :: s in grid.slots
    ensures o in AllOccurrences(grid, slots, first, end, now) <==>
            exists s, d :: s in slots && first <= d < end && Occurs(grid, s, d, now, o)
  {
    if slots == [] {
    } else {
      var n := |slots| - 1;
      var s := slots[n];
      assert slots == slots[..n] + [s];
      OccurrenceMembers(grid, slots[..n], first, end, now, o);
      var dates := DatesOn(s.slot.dayOfWeek, first, end);
      SlotOccurrenceMembers(grid, s, dates, now, o);
      forall d ensures d in dates <==> first <= d < end && Weekday(d) == s.slot.dayOfWeek {
        DatesOnMembers(s.slot.dayOfWeek, first, end, d);
      }
      if o in SlotOccurrences(grid, s, dates, now) {
        var d :| d in dates && o == OccurrenceOf(grid, s, d, now);
        assert Occurs(grid, s, d, now, o);
      }
    }
  }

  lemma {:induction false} UntakenMembers(os: seq<Occurrence>, taken: set<SlotKey>, o: Occurrence)
    ensures o in Untaken(os, taken) <==> o in os && o.key !in taken
  {
    if os == [] {
    } else {
      UntakenMembers(os[..|os| - 1], taken, o);
      assert os == os[..|os| - 1] + [os[|os| - 1]];
    }
  }

  // ----- open slots and the queue scheduler

  /** The posts handed to the grid are unfiltered: each row with a time on a visible date is there, at that time. */
  ghost predicate Unfiltered(grid: Grid, posts: seq<CalendarPost>, db: Db) {
    forall k | k in db.children && Effective(db, k).Some? &&
      grid.display.localDate(Effective(db, k).value) in grid.visible ::
      CalendarPost(k.account, Effective(db, k)) in posts
  }

  /** A slot shown as open is never an instant the scheduler counts as occupied. */
  lemma OpenIsNeverOccupied(grid: Grid, posts: seq<CalendarPost>, db: Db, now: Instant, o: Occurrence,
                            moment: Instant, exclude: ChildKey)
    requires Unfiltered(grid, posts, db) && o in Open(grid, posts, now)
    ensures o.at !in Occupied(db.children, o.key.account, moment, exclude)
  {
    var shown := Shown(grid, now);
    var keys := KeysOf(shown);
    var taken := TakenKeys(grid, keys, posts);
    var x, account := o.at, o.key.account;
    OpenIsShown(grid, posts, now, o);
    forall k | k in db.children && k.account == account && db.children[k].scheduledAt == Some(x)
      ensures o.key in taken {
      var p := CalendarPost(k.account, Some(x));
      assert p in posts && TakesSlot(grid, keys, p);
    }
    UntakenMembers(shown, taken, o);
  }

  /** An open occurrence is a shown one, and its key says where and when it is. */
  lemma OpenIsShown(grid: Grid, posts: seq<CalendarPost>, now: Instant, o: Occurrence)
    requires o in Open(grid, posts, now)
    ensures o in Shown(grid, now) && o.key == KeyAt(grid.display, o.key.account, o.at) && o.key.date in grid.visible
    ensures exists slot :: ChannelSlot(o.key.account, slot) in grid.slots && Weekday(o.composeDate) == slot.dayOfWeek &&
              o.at == grid.workspace.instant(o.composeDate, slot.time)
  {
    var shown := Shown(grid, now);
    UntakenMembers(shown, TakenKeys(grid, KeysOf(shown), posts), o);
    OccurrenceMembers(grid, grid.slots, MinOf(grid.visible) - 1, MaxOf(grid.visible) + 2, now, o);
    var s, d :| s in grid.slots && Occurs(grid, s, d, now, o);
    OccursWhere(grid, s, d, now, o);
  }

  lemma OccursWhere(grid: Grid, s: ChannelSlot, d: LocalDate, now: Instant, o: Occurrence)
    requires Occurs(grid, s, d, now, o)
    ensures ChannelSlot(o.key.account, s.slot) in grid.slots && Weekday(o.composeDate) == s.slot.dayOfWeek
    ensures o.at == grid.workspace.instant(o.composeDate, s.slot.time) &&
      o.key == KeyAt(grid.display, o.key.account, o.at)
    ensures o.key.date in grid.visible
  {}

  /** A channel's calendar holds the slots the grid has for it, in the same zone. */
  ghost predicate SameSlots(grid: Grid, account: int, cal: Calendar) {
    cal.zone == grid.workspace && forall s :: ChannelSlot(account, s) in grid.slots <==> s in cal.slots
  }

  /**
   * An open slot in the coming 60 days is one the scheduler can hand out: its next free slot exists and
   * is no later.
   */
  lemma OpenSlotBoundsNextAvailable(
    grid: Grid, posts: seq<CalendarPost>, db: Db, now: Instant, o: Occurrence, cal: Calendar, exclude: ChildKey)
    requires Unfiltered(grid, posts, db) && o in Open(grid, posts, now) && SameSlots(grid, o.key.account, cal) &&
      WellFormed(cal)
    requires o.at > now && 0 <= o.composeDate - cal.zone.localDate(now) < HORIZON_DAYS
    ensures var r := FirstFree(Upcoming(cal, now), Occupied(db.children, o.key.account, now, exclude));
      r.Some? && r.value <= o.at
  {
    OpenIsNeverOccupied(grid, posts, db, now, o, now, exclude);
    OpenIsShown(grid, posts, now, o);
    var slot :| ChannelSlot(o.key.account, slot) in grid.slots && Weekday(o.composeDate) == slot.dayOfWeek &&
      o.at == grid.workspace.instant(o.composeDate, slot.time);
    var i :| 0 <= i < |cal.slots| && cal.slots[i] == slot;
    assert IsOccurrence(cal, o.at, o.composeDate, i);
    UpcomingMembers(cal, now, o.at);
    UpcomingAscends(cal, now);
    FreeCandidateBounds(Upcoming(cal, now), Occupied(db.children, o.key.account, now, exclude), o.at);
  }

  // ----- nothing is missed

  function TakenOnes(os: seq<Occurrence>, taken: set<SlotKey>): seq<Occurrence> {
    if os == [] then [] else
      var o := os[|os| - 1];
      TakenOnes(os[..|os| - 1], taken) + if o.key in taken then [o] else []
  }

  /** Open and taken occurrences together are the shown ones, each counted once. */
  lemma {:induction false} OpenAndTakenAreAll(os: seq<Occurrence>, taken: set<SlotKey>)
    ensures multiset(Untaken(os, taken)) + multiset(TakenOnes(os, taken)) == multiset(os)
  {
    if os == [] {
    } else {
      var front, o := os[..|os| - 1], os[|os| - 1];
      OpenAndTakenAreAll(front, taken);
      assert os == front + [o];
      var u, t := Untaken(front, taken), TakenOnes(front, taken);
      assert multiset(os) == multiset(front) + multiset{o};
      if o.key in taken {
        assert Untaken(os, taken) == u && TakenOnes(os, taken) == t + [o];
        assert multiset(t + [o]) == multiset(t) + multiset{o};
      } else {
        assert multiset(u + [o]) == multiset(u) + multiset{o};
        assert Untaken(os, taken) == u + [o] && TakenOnes(os, taken) == t;
      }
    }
  }

  /** The display shows each occurrence at most one day away from its workspace date. */
  ghost predicate WithinADay(grid: Grid) {
    forall s, d | s in grid.slots ::
      d - 1 <= grid.display.localDate(grid.workspace.instant(d, s.slot.time)) <= d + 1
  }

  /** Then every occurrence of every slot, on any date, that falls on a visible date is shown. */
  lemma NothingIsMissed(grid: Grid, now: Instant, s: ChannelSlot, d: LocalDate)
    requires WithinADay(grid) && s in grid.slots && Weekday(d) == s.slot.dayOfWeek
    requires OccurrenceOf(grid, s, d, now).key.date in grid.visible
    ensures OccurrenceOf(grid, s, d, now) in Shown(grid, now)
  {
    var o := OccurrenceOf(grid, s, d, now);
    var first, end := MinOf(grid.visible) - 1, MaxOf(grid.visible) + 2;
    assert d - 1 <= o.key.date <= d + 1;
    assert first <= d < end && Occurs(grid, s, d, now, o);
    OccurrenceMembers(grid, grid.slots, first, end, now, o);
  }

  // ----- how far apart the zones may be

  function DisplayAt(offset: int): Display {
    Display(x => (x + offset) / DAY_SECONDS, x => (x + offset) % DAY_SECONDS / 3600, x => (x + offset) % 3600 / 60)
  }

  /** That is a clock: date, hour and minute are those of the shifted instant. */
  lemma DisplayIsAClock(offset: int, x: Instant)
    ensures var d := DisplayAt(offset);
      && 0 <= d.hour(x) < 24 && 0 <= d.minute(x) < 60
      && 0 <= x + offset - (86400 * d.localDate(x) + 3600 * d.hour(x) + 60 * d.minute(x)) < 60
  {
    var s := (x + offset) % DAY_SECONDS;
    assert x + offset == 86400 * ((x + offset) / DAY_SECONDS) + s;
    assert x + offset == 3600 * (24 * ((x + offset) / DAY_SECONDS)) + s && (x + offset) % 3600 == s % 3600;
  }

  function FixedGrid(workspaceOffset: int, displayOffset: int, s: ChannelSlot, visible: set<LocalDate>): Grid {
    Grid(FixedZone(workspaceOffset), DisplayAt(displayOffset), [s], visible)
  }

  /** On grids of these zones every occurrence that falls on a visible date is shown. */
  ghost predicate Complete(workspaceOffset: int, displayOffset: int) {
    forall s: ChannelSlot, visible: set<LocalDate>, d: LocalDate, now: Instant |
      && 0 <= s.slot.time < DAY_SECONDS && Weekday(d) == s.slot.dayOfWeek
      && OccurrenceOf(FixedGrid(workspaceOffset, displayOffset, s, visible), s, d, now).key.date in visible ::
      OccurrenceOf(FixedGrid(workspaceOffset, displayOffset, s, visible), s, d, now) in
      Shown(FixedGrid(workspaceOffset, displayOffset, s, visible), now)
  }

  lemma DisplayDate(workspaceOffset: int, displayOffset: int, d: LocalDate, t: int)
    ensures DisplayAt(displayOffset).localDate(FixedZone(workspaceOffset).instant(d, t)) ==
            d + (t + displayOffset - workspaceOffset) / DAY_SECONDS
  {}

  /** A slot whose display date is two days off is missed when just that date is drawn. */
  lemma TwoDaysOffIsMissed(workspaceOffset: int, displayOffset: int, t: int, now: Instant)
    requires 0 <= t < DAY_SECONDS
    requires var shift := (t + displayOffset - workspaceOffset) / DAY_SECONDS; shift < -1 || shift > 1
    ensures !Complete(workspaceOffset, displayOffset)
  {
    var s := ChannelSlot(1, Slot(0, t));
    var visible := {1 + (t + displayOffset - workspaceOffset) / DAY_SECONDS};
    var grid := FixedGrid(workspaceOffset, displayOffset, s, visible);
    var o := OccurrenceOf(grid, s, 1, now);
    DisplayDate(workspaceOffset, displayOffset, 1, t);
    OccurrenceMembers(grid, grid.slots, MinOf(visible) - 1, MaxOf(visible) + 2, now, o);
    forall s2, d | Occurs(grid, s2, d, now, o) ensures d == 1 {
      assert OccurrenceOf(grid, s2, d, now).composeDate == d;
    }
  }

  /**
   * The widening by one day on either side suffices exactly for offsets at most 24 hours apart; +14
   * against -12 is too far.
   */
  lemma CompleteWithinADay(workspaceOffset: int, displayOffset: int)
    ensures Complete(workspaceOffset, displayOffset) <==> -DAY_SECONDS <= displayOffset - workspaceOffset <= DAY_SECONDS
  {
    var gap := displayOffset - workspaceOffset;
    if gap > DAY_SECONDS {
      TwoDaysOffIsMissed(workspaceOffset, displayOffset, DAY_SECONDS - 1, 0);
    } else if gap < -DAY_SECONDS {
      TwoDaysOffIsMissed(workspaceOffset, displayOffset, 0, 0);
    } else {
      forall s: ChannelSlot, visible: set<LocalDate>, d: LocalDate, now: Instant |
        && 0 <= s.slot.time < DAY_SECONDS && Weekday(d) == s.slot.dayOfWeek
        && OccurrenceOf(FixedGrid(workspaceOffset, displayOffset, s, visible), s, d, now).key.date in visible
        ensures OccurrenceOf(FixedGrid(workspaceOffset, displayOffset, s, visible), s, d, now) in
                Shown(FixedGrid(workspaceOffset, displayOffset, s, visible), now)
      {
        var grid := FixedGrid(workspaceOffset, displayOffset, s, visible);
        forall e ensures e - 1 <= grid.display.localDate(grid.workspace.instant(e, s.slot.time)) <= e + 1 {
          DisplayDate(workspaceOffset, displayOffset, e, s.slot.time);
        }
        NothingIsMissed(grid, now, s, d);
      }
    }
  }

  // ----- the same in the fields of the slots and posts

  /** The wall-clock minute of an instant on the display. */
  ghost predicate SameMinute(display: Display, key: SlotKey, x: Instant) {
    display.localDate(x) == key.date && display.hour(x) == key.hour && display.minute(x) == key.minute
  }

  /**
   * The occurrences generated: one for each slot and each date of its weekday, from the day before
   * the first visible date to the day after the last, that falls on a visible date of the display;
   * it is past exactly when its instant is not after now.
   */
  lemma ShownExactly(grid: Grid, now: Instant, o: Occurrence)
    requires grid.visible != {}
    ensures o in Shown(grid, now) <==>
            exists s, d :: s in grid.slots && (d + 6) % 7 == s.slot.dayOfWeek &&
              MinOf(grid.visible) - 1 <= d <= MaxOf(grid.visible) + 1 && ShownAs(grid, now, s, d, o)
  {
    var first, end := MinOf(grid.visible) - 1, MaxOf(grid.visible) + 2;
    OccurrenceMembers(grid, grid.slots, first, end, now, o);
    forall s, d | s in grid.slots && (d + 6) % 7 == s.slot.dayOfWeek && first <= d < end && ShownAs(grid, now, s, d, o)
      ensures Occurs(grid, s, d, now, o)
    {}
    forall s, d | Occurs(grid, s, d, now, o) ensures (d + 6) % 7 == s.slot.dayOfWeek && ShownAs(grid, now, s, d, o) {}
  }

  ghost predicate ShownAs(grid: Grid, now: Instant, s: ChannelSlot, d: LocalDate, o: Occurrence) {
    && o.at == grid.workspace.instant(d, s.slot.time) && o.composeDate == d && o.composeTime == s.slot.time
    && o.key.account == s.account && SameMinute(grid.display, o.key, o.at) && o.key.date in grid.visible
    && (o.isPast <==> o.at <= now)
  }

  /** The post is on the occurrence's channel, in its minute. */
  ghost predicate SitsOn(grid: Grid, p: CalendarPost, o: Occurrence) {
    p.account == o.key.account && p.effectiveAt.Some? && SameMinute(grid.display, o.key, p.effectiveAt.value)
  }

  /** Open are exactly the generated occurrences in whose minute no post of the channel sits. */
  lemma OpenExactly(grid: Grid, posts: seq<CalendarPost>, now: Instant, o: Occurrence)
    ensures o in Open(grid, posts, now) <==> o in Shown(grid, now) && !exists p :: p in posts && SitsOn(grid, p, o)
  {
    var shown := Shown(grid, now);
    var keys := KeysOf(shown);
    UntakenMembers(shown, TakenKeys(grid, keys, posts), o);
    if o in shown {
      assert o.key in keys;
      if p :| p in posts && SitsOn(grid, p, o) {
        assert KeyAt(grid.display, p.account, p.effectiveAt.value) == o.key && TakesSlot(grid, keys, p);
      }
      if o.key in TakenKeys(grid, keys, posts) {
        var p :| p in posts && TakesSlot(grid, keys, p) &&
          KeyAt(grid.display, p.account, p.effectiveAt.value) == o.key;
        assert SitsOn(grid, p, o);
      }
    }
  }

  /** A post takes a slot exactly when it sits in the minute of a generated occurrence of its channel. */
  lemma TakesExactly(grid: Grid, now: Instant, p: CalendarPost)
    ensures TakesSlot(grid, KeysOf(Shown(grid, now)), p) <==>
            exists o :: o in Shown(grid, now) && SitsOn(grid, p, o)
  {
    if TakesSlot(grid, KeysOf(Shown(grid, now)), p) {
      var o :| o in Shown(grid, now) && o.key == KeyAt(grid.display, p.account, p.effectiveAt.value);
      assert SitsOn(grid, p, o);
    }
    if o :| o in Shown(grid, now) && SitsOn(grid, p, o) {
      assert KeyAt(grid.display, p.account, p.effectiveAt.value) == o.key && o.key in KeysOf(Shown(grid, now));
    }
  }

  /** A cell lists the untaken occurrences of its date and hour. */
  lemma {:induction false} CellMembers(os: seq<Occurrence>, c: Cell, o: Occurrence)
    ensures o in InCell(os, c) <==> o in os && o.key.date == c.0 && o.key.hour == c.1
  {
    if os == [] {
    } else {
      CellMembers(os[..|os| - 1], c, o);
      assert os == os[..|os| - 1] + [os[|os| - 1]];
    }
  }

  lemma {:induction false} UntakenConcat(first: seq<Occurrence>, second: seq<Occurrence>, taken: set<SlotKey>)
    ensures Untaken(first + second, taken) == Untaken(first, taken) + Untaken(second, taken)
  {
    if second == [] {
      assert first + second == first;
    } else {
      var n := |second| - 1;
      assert (first + second)[..|first| + n] == first + second[..n];
      UntakenConcat(first, second[..n], taken);
    }
  }

  lemma {:induction false} CellConcat(first: seq<Occurrence>, second: seq<Occurrence>, c: Cell)
    ensures InCell(first + second, c) == InCell(first, c) + InCell(second, c)
  {
    if second == [] {
      assert first + second == first;
    } else {
      var n := |second| - 1;
      assert (first + second)[..|first| + n] == first + second[..n];
      CellConcat(first, second[..n], c);
    }
  }

  /** And lists them in the order in which they were generated, each as often. */
  lemma CellsKeepOrder(first: seq<Occurrence>, second: seq<Occurrence>, taken: set<SlotKey>, c: Cell)
    ensures InCell(Untaken(first + second, taken), c) ==
            InCell(Untaken(first, taken), c) + InCell(Untaken(second, taken), c)
  {
    UntakenConcat(first, second, taken);
    CellConcat(Untaken(first, taken), Untaken(second, taken), c);
  }

  /** Occurrences are generated slot by slot, and for each slot by date. */
  lemma {:induction false} SlotsInOrder(
    grid: Grid, first: seq<ChannelSlot>, second: seq<ChannelSlot>, from: LocalDate, end: LocalDate, now: Instant)
    ensures AllOccurrences(grid, first + second, from, end, now) ==
            AllOccurrences(grid, first, from, end, now) + AllOccurrences(grid, second, from, end, now)
  {
    if second == [] {
      assert first + second == first;
    } else {
      var n := |second| - 1;
      var s := second[n];
      assert first + second == (first + second[..n]) + [s] && second == second[..n] + [s];
      SlotsInOrder(grid, first, second[..n], from, end, now);
      ConcatAssociates(
        AllOccurrences(grid, first, from, end, now), AllOccurrences(grid, second[..n], from, end, now),
        SlotOccurrences(grid, s, DatesOn(s.slot.dayOfWeek, from, end), now));
      AllSnoc(grid, first + second[..n], s, from, end, now);
      AllSnoc(grid, second[..n], s, from, end, now);
    }
  }

  lemma ConcatAssociates<T>(a: seq<T>, b: seq<T>, c: seq<T>)
    ensures (a + b) + c == a + (b + c)
  {}

  ghost predicate ByDate(os: seq<Occurrence>) {
    forall i, j | 0 <= i < j < |os| :: os[i].composeDate < os[j].composeDate
  }

  lemma {:induction false} DatesInOrder(grid: Grid, s: ChannelSlot, from: LocalDate, end: LocalDate, now: Instant)
    ensures ByDate(SlotOccurrences(grid, s, DatesOn(s.slot.dayOfWeek, from, end), now))
    decreases end - from
  {
    if end <= from {
    } else {
      var front := DatesOn(s.slot.dayOfWeek, from, end - 1);
      DatesInOrder(grid, s, from, end - 1, now);
      if Weekday(end - 1) == s.slot.dayOfWeek {
        assert DatesOn(s.slot.dayOfWeek, from, end) == front + [end - 1];
        EarlierDates(grid, s, from, end - 1, now);
        OneMoreDate(grid, s, front, end - 1, now);
      } else {
        assert DatesOn(s.slot.dayOfWeek, from, end) == front;
      }
    }
  }

  lemma EarlierDates(grid: Grid, s: ChannelSlot, from: LocalDate, end: LocalDate, now: Instant)
    ensures forall o | o in SlotOccurrences(grid, s, DatesOn(s.slot.dayOfWeek, from, end), now) :: o.composeDate < end
  {
    var dates := DatesOn(s.slot.dayOfWeek, from, end);
    forall o | o in SlotOccurrences(grid, s, dates, now) ensures o.composeDate < end {
      SlotOccurrenceMembers(grid, s, dates, now, o);
      DatesOnMembers(s.slot.dayOfWeek, from, end, o.composeDate);
    }
  }

  lemma OneMoreDate(grid: Grid, s: ChannelSlot, dates: seq<LocalDate>, d: LocalDate, now: Instant)
    ensures var o := OccurrenceOf(grid, s, d, now);
      SlotOccurrences(grid, s, dates + [d], now) ==
        SlotOccurrences(grid, s, dates, now) + if o.key.date in grid.visible then [o] else []
  {
    assert (dates + [d])[..|dates|] == dates;
  }
}
