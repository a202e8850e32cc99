/** Whole histories of queue operations, each atomic under the channel lock, with time moving between them. */
module SchedulerRuns {
  import opened Prelude
  import opened PostingSlots
  import opened Availability
  import opened ScheduleStore
  import opened QueueOps
  import opened QueueReorder

  datatype Op =
    | Add(post: int, queue: int)
    | Prioritize(post: int, queue: int)
    | Reslot(e: EntryKey)
    | Remove(e: EntryKey)
    | Reorder(queue: int, ids: seq<EntryKey>)

  datatype Event = Event(op: Op, now: Instant)

  function QueueOf(op: Op): int {
    match op
    case Add(_, q) => q
    case Prioritize(_, q) => q
    case Reslot(e) => e.queue
    case Remove(e) => e.queue
    case Reorder(q, _) => q
  }

  /** The operation was asked for this very post. */
  predicate NamesPost(op: Op, post: int) {
    match op
    case Add(p, _) => p == post
    case Prioritize(p, _) => p == post
    case Reslot(e) => e.post == post
    case Remove(e) => e.post == post
    case Reorder(_, _) => false
  }

  function Settle(db: Db, outcome: Outcome): Db {
    if outcome.Done? then outcome.db else db
  }

  function Step(cfg: Config, db: Db, ev: Event): Db {
    match ev.op
    case Add(p, q) => Settle(db, AddDb(cfg, db, p, q, ev.now))
    case Prioritize(p, q) => Settle(db, PrioritizeDb(cfg, db, p, q, ev.now))
    case Reslot(e) => Settle(db, AddDb(cfg, db, e.post, e.queue, ev.now))
    case Remove(e) => RemoveDb(cfg, db, e)
    case Reorder(q, ids) => ReorderDb(cfg, db, q, ids)
  }

  function Run(cfg: Config, db: Db, events: seq<Event>): Db
    decreases |events|
  {
    if events == [] then db else Run(cfg, Step(cfg, db, events[0]), events[1..])
  }

  /** A reorder request lists each entry at most once. */
  ghost predicate NamesEntriesOnce(op: Op) {
    op.Reorder? ==> Unique(op.ids)
  }

  function EndTime(start: Instant, events: seq<Event>): Instant
    decreases |events|
  {
    if events == [] then start else EndTime(events[0].now, events[1..])
  }

  ghost predicate InTimeOrder(start: Instant, events: seq<Event>)
    decreases |events|
  {
    events == [] || (start <= events[0].now && InTimeOrder(events[0].now, events[1..]))
  }

  // ----- no double booking, over every run

  lemma StepBooksOnce(cfg: Config, db: Db, ev: Event, account: int)
    requires WellFormed(cfg.calendarOf(account)) && NoDoubleBooking(db.children, account, ev.now)
    requires cfg.accountOf(QueueOf(ev.op)) == account ==> NamesEntriesOnce(ev.op)
    ensures NoDoubleBooking(Step(cfg, db, ev).children, account, ev.now)
  {
    match ev.op
    case Add(p, q) => AddKeepsBooking(cfg, db, p, q, ev.now, account);
    case Prioritize(p, q) => PrioritizeKeepsBooking(cfg, db, p, q, ev.now, account);
    case Reslot(e) => AddKeepsBooking(cfg, db, e.post, e.queue, ev.now, account);
    case Remove(e) => RemoveKeepsBooking(cfg, db, e, ev.now, account);
    case Reorder(q, ids) => ReorderKeepsBooking(cfg, db, q, ids, ev.now, account);
  }

  /**
   * Whatever the operations, on whatever channels, and however time passes between them, a channel
   * that starts with distinct instants never books one twice. Other channels may be in any state.
   */
  lemma {:induction false} RunsNeverDoubleBook(cfg: Config, db: Db, start: Instant, events: seq<Event>, account: int)
    requires WellFormed(cfg.calendarOf(account)) && NoDoubleBooking(db.children, account, start)
    requires InTimeOrder(start, events)
    requires forall ev | ev in events && cfg.accountOf(QueueOf(ev.op)) == account :: NamesEntriesOnce(ev.op)
    ensures NoDoubleBooking(Run(cfg, db, events).children, account, EndTime(start, events))
    decreases |events|
  {
    if events == [] {
    } else {
      var ev := events[0];
      assert ev in events;
      BookingOverTime(db.children, account, start, ev.now);
      StepBooksOnce(cfg, db, ev, account);
      RunsNeverDoubleBook(cfg, Step(cfg, db, ev), ev.now, events[1..], account);
    }
  }

  // ----- parents follow their children

  lemma RemoveKeepsSync(cfg: Config, db: Db, e: EntryKey)
    requires ParentsInSync(db)
    ensures ParentsInSync(RemoveDb(cfg, db, e))
  {
    var db' := RemoveDb(cfg, db, e);
    InSyncShowsEarliest(db);
    InSyncShowsEarliest(db');
    forall p | p in db'.parents ensures db'.parents[p] == Earliest(db'.children, p) {
      if p != e.post { EarliestFrame(db.children, db'.children, p); }
    }
  }

  lemma StepKeepsSync(cfg: Config, db: Db, ev: Event)
    requires ParentsInSync(db)
    ensures ParentsInSync(Step(cfg, db, ev))
  {
    var q := QueueOf(ev.op);
    var account := cfg.accountOf(q);
    match ev.op
    case Add(p, _) => PlacedKeepsSync(db, account, q, p);
    case Reslot(e) => PlacedKeepsSync(db, account, q, e.post);
    case Prioritize(p, _) =>
      PlacedKeepsSync(db, account, q, p);
      var l := LadderOf(cfg, db, p, q, ev.now);
      if l.NeedsLadder() && l.Fits() {
        AssignKeepsSync(db.(entries := EnsureEntry(db.entries, q, p)), account, q, l.Plan());
      }
    case Remove(e) => RemoveKeepsSync(cfg, db, e);
    case Reorder(_, ids) => AssignKeepsSync(db, account, q, ReorderPlan(db, account, q, ids));
  }

  lemma PlacedKeepsSync(db: Db, account: int, queue: int, post: int)
    requires ParentsInSync(db)
    ensures forall t :: ParentsInSync(Place(db, account, queue, post, t))
  {
    forall t ensures ParentsInSync(Place(db, account, queue, post, t)) {
      AssignKeepsSync(db.(entries := EnsureEntry(db.entries, queue, post)), account, queue, map[post := t]);
    }
  }

  /** Every parent keeps showing the earliest of its children's schedules. */
  lemma {:induction false} RunsKeepParentsInSync(cfg: Config, db: Db, events: seq<Event>)
    requires ParentsInSync(db)
    ensures ParentsInSync(Run(cfg, db, events))
    decreases |events|
  {
    if events == [] {
    } else {
      StepKeepsSync(cfg, db, events[0]);
      RunsKeepParentsInSync(cfg, Step(cfg, db, events[0]), events[1..]);
    }
  }

  // ----- what an operation never moves

  /** The operation may touch this child: same channel, and named or sitting in the operated queue. */
  predicate MayMove(cfg: Config, db: Db, op: Op, k: ChildKey) {
    && k.account == cfg.accountOf(QueueOf(op))
    && (NamesPost(op, k.post) || EntryKey(QueueOf(op), k.post) in db.entries)
  }

  /** A published or publishing child is safe from everything but a prioritize of its own post. */
  predicate SafeHistory(cfg: Config, db: Db, op: Op, k: ChildKey) {
    IsProtected(db.children, k) && !(op.Prioritize? && op.post == k.post && k.account == cfg.accountOf(op.queue))
  }

  /** The step leaves child k alone unless `moved`, and adds entries only for the post it names. */
  ghost predicate Spares(db: Db, db': Db, op: Op, k: ChildKey, moved: bool) {
    && db'.children.Keys == db.children.Keys
    && (k in db.children && !moved ==> db'.children[k] == db.children[k])
    && (forall e | e in db'.entries :: e in db.entries || (e.queue == QueueOf(op) && NamesPost(op, e.post)))
  }

  lemma AssignSpares(db: Db, account: int, op: Op, post: int, plan: map<int, Instant>, k: ChildKey)
    requires NamesPost(op, post)
    ensures var ensured := db.(entries := EnsureEntry(db.entries, QueueOf(op), post));
      Spares(db, Assign(ensured, account, QueueOf(op), plan), op, k, k.account == account && k.post in plan)
  {}

  lemma AddSpares(cfg: Config, db: Db, op: Op, post: int, now: Instant, k: ChildKey)
    requires NamesPost(op, post)
    ensures Spares(db, Settle(db, AddDb(cfg, db, post, QueueOf(op), now)), op, k,
                   k == ChildKey(post, cfg.accountOf(QueueOf(op))) && !IsProtected(db.children, k))
  {}

  lemma PrioritizeSpares(cfg: Config, db: Db, post: int, queue: int, now: Instant, k: ChildKey)
    ensures Spares(db, Settle(db, PrioritizeDb(cfg, db, post, queue, now)), Prioritize(post, queue), k,
                   k == ChildKey(post, cfg.accountOf(queue)) ||
                   (k.account == cfg.accountOf(queue) && EntryKey(queue, k.post) in db.entries &&
                     !IsProtected(db.children, k)))
  {
    var l, op := LadderOf(cfg, db, post, queue, now), Prioritize(post, queue);
    if l.NeedsLadder() {
      if l.Fits() {
        AssignSpares(db, l.account, op, post, l.Plan(), k);
        if k.account == l.account && k.post in l.Movers() {
          MoversAreFree(l, k.post);
          assert k == ChildKey(k.post, l.account);
        }
      }
    } else {
      match FirstFree(l.all, l.Occupied())
      case None =>
      case Some(t) => AssignSpares(db, l.account, op, post, map[post := t], k);
    }
  }

  lemma RemoveSpares(cfg: Config, db: Db, e: EntryKey, k: ChildKey)
    ensures Spares(db, RemoveDb(cfg, db, e), Remove(e), k,
                   k == ChildKey(e.post, cfg.accountOf(e.queue)) && !IsProtected(db.children, k))
  {}

  /** An operation moves only posts it names or that sit in its queue, on its channel, and spares history. */
  lemma StepMovesOnlyTheQueue(cfg: Config, db: Db, ev: Event, k: ChildKey)
    ensures Spares(db, Step(cfg, db, ev), ev.op, k, MayMove(cfg, db, ev.op, k) && !SafeHistory(cfg, db, ev.op, k))
  {
    var after, moved := Step(cfg, db, ev), MayMove(cfg, db, ev.op, k) && !SafeHistory(cfg, db, ev.op, k);
    var account, free := cfg.accountOf(QueueOf(ev.op)), !IsProtected(db.children, k);
    match ev.op
    case Add(p, q) =>
      AddSpares(cfg, db, ev.op, p, ev.now, k);
      SparesMore(db, after, ev.op, k, k == ChildKey(p, account) && free, moved);
    case Reslot(e) =>
      AddSpares(cfg, db, ev.op, e.post, ev.now, k);
      SparesMore(db, after, ev.op, k, k == ChildKey(e.post, account) && free, moved);
    case Remove(e) =>
      RemoveSpares(cfg, db, e, k);
      SparesMore(db, after, ev.op, k, k == ChildKey(e.post, account) && free, moved);
    case Prioritize(p, q) =>
      PrioritizeSpares(cfg, db, p, q, ev.now, k);
      SparesMore(db, after, ev.op, k,
                 k == ChildKey(p, account) ||
                   (k.account == account && EntryKey(q, k.post) in db.entries && free), moved);
    case Reorder(q, ids) =>
      ReorderSpares(cfg, db, q, ids, k);
      SparesMore(db, after, ev.op, k, k.account == account && EntryKey(q, k.post) in db.entries && free, moved);
  }

  lemma SparesMore(db: Db, after: Db, op: Op, k: ChildKey, moved: bool, more: bool)
    requires Spares(db, after, op, k, moved) && (moved ==> more)
    ensures Spares(db, after, op, k, more)
  {}

  lemma ReorderPlanKeys(db: Db, account: int, queue: int, ids: seq<EntryKey>, p: int)
    requires p in ReorderPlan(db, account, queue, ids)
    ensures EntryKey(queue, p) in db.entries && !IsProtected(db.children, ChildKey(p, account))
  {
    var named := Named(db, account, queue, ids);
    var posts := Slotted(db, account, named);
    SlottedHold(db, account, named);
    SortedSorts(Times(db, account, posts));
    DealtPosts(posts, Sorted(Times(db, account, posts)));
    SlottedAreNamed(db, account, named);
    NamedAreEntries(db, account, queue, ids);
    var e :| e in named && e.post == p;
    assert e == EntryKey(queue, p);
  }

  lemma ReorderSpares(cfg: Config, db: Db, queue: int, ids: seq<EntryKey>, k: ChildKey)
    ensures Spares(db, ReorderDb(cfg, db, queue, ids), Reorder(queue, ids), k,
                   k.account == cfg.accountOf(queue) && EntryKey(queue, k.post) in db.entries &&
                     !IsProtected(db.children, k))
  {
    var account := cfg.accountOf(queue);
    ReorderChildren(cfg, db, queue, ids);
    NamedAreEntries(db, account, queue, ids);
    if k.account == account && k.post in ReorderPlan(db, account, queue, ids) {
      ReorderPlanKeys(db, account, queue, ids, k.post);
      assert k == ChildKey(k.post, account);
    }
  }

  /** No operation on the child's channel names its post or works on a queue the post sits in. */
  ghost predicate Bystander(cfg: Config, db: Db, events: seq<Event>, k: ChildKey) {
    && k in db.children
    && forall ev | ev in events && cfg.accountOf(QueueOf(ev.op)) == k.account ::
         !NamesPost(ev.op, k.post) && EntryKey(QueueOf(ev.op), k.post) !in db.entries
  }

  /** A post outside the operated queues is never moved, however long the run, though it may sit in others. */
  lemma {:induction false} RunsLeaveBystandersAlone(cfg: Config, db: Db, events: seq<Event>, k: ChildKey)
    requires Bystander(cfg, db, events, k)
    ensures k in Run(cfg, db, events).children && Run(cfg, db, events).children[k] == db.children[k]
    decreases |events|
  {
    if events == [] {
    } else {
      var db' := Step(cfg, db, events[0]);
      assert events[0] in events;
      StepMovesOnlyTheQueue(cfg, db, events[0], k);
      assert !MayMove(cfg, db, events[0].op, k);
      assert Bystander(cfg, db', events[1..], k) by {
        forall ev | ev in events[1..] && cfg.accountOf(QueueOf(ev.op)) == k.account
          ensures !NamesPost(ev.op, k.post) && EntryKey(QueueOf(ev.op), k.post) !in db'.entries
        {
          assert ev in events;
        }
      }
      RunsLeaveBystandersAlone(cfg, db', events[1..], k);
    }
  }

  /** A published or publishing child is never moved by a run that does not prioritize its own post on its channel. */
  lemma {:induction false} RunsLeaveHistoryAlone(cfg: Config, db: Db, events: seq<Event>, k: ChildKey)
    requires IsProtected(db.children, k)
    requires forall ev | ev in events :: SafeHistory(cfg, db, ev.op, k)
    ensures k in Run(cfg, db, events).children && Run(cfg, db, events).children[k] == db.children[k]
    decreases |events|
  {
    if events == [] {
    } else {
      var db' := Step(cfg, db, events[0]);
      assert events[0] in events;
      StepMovesOnlyTheQueue(cfg, db, events[0], k);
      assert forall ev | ev in events[1..] :: ev in events && SafeHistory(cfg, db', ev.op, k);
      RunsLeaveHistoryAlone(cfg, db', events[1..], k);
    }
  }

  /** The post already holds the instant prioritize would give it. */
  ghost predicate HoldsItsTarget(l: Ladder, t: Option<Instant>) {
    && t.Some? && t.value in l.all
    && if l.NeedsLadder() then t.value == l.all[0]
       else t.value !in l.Occupied() && forall y | y in l.all && y < t.value :: y in l.Occupied()
  }

  /**
   * Unlike add and reorder, prioritize does not spare its own post when that is already published:
   * it rewrites the row exactly when a slot is left for it and the row is not there already.
   */
  lemma PrioritizeRewritesOwnHistory(cfg: Config, db: Db, post: int, queue: int, now: Instant)
    requires WellFormed(cfg.calendarOf(cfg.accountOf(queue)))
    requires IsProtected(db.children, ChildKey(post, cfg.accountOf(queue)))
    ensures var k, l := ChildKey(post, cfg.accountOf(queue)), LadderOf(cfg, db, post, queue, now);
      var after := Step(cfg, db, Event(Prioritize(post, queue), now)).children;
      && k in after
      && (after[k] != db.children[k] <==> HasRoom(l) && !HoldsItsTarget(l, db.children[k].scheduledAt))
  {
    var l := LadderOf(cfg, db, post, queue, now);
    UpcomingAscends(cfg.calendarOf(l.account), now);
    PrioritizeNeedsRoom(cfg, db, post, queue, now);
    if !l.NeedsLadder() { FirstFreeIsEarliest(l.all, l.Occupied()); }
  }

  /** A published row, whose time is past, is therefore rewritten exactly when a slot is left. */
  lemma PublishedRowsAreRewritten(cfg: Config, db: Db, post: int, queue: int, now: Instant)
    requires WellFormed(cfg.calendarOf(cfg.accountOf(queue)))
    requires IsProtected(db.children, ChildKey(post, cfg.accountOf(queue)))
    requires var t := db.children[ChildKey(post, cfg.accountOf(queue))].scheduledAt; t.None? || t.value <= now
    ensures var k, l := ChildKey(post, cfg.accountOf(queue)), LadderOf(cfg, db, post, queue, now);
      var after := Step(cfg, db, Event(Prioritize(post, queue), now)).children;
      k in after && (after[k] != db.children[k] <==> HasRoom(l))
  {
    UpcomingAscends(cfg.calendarOf(cfg.accountOf(queue)), now);
    PrioritizeRewritesOwnHistory(cfg, db, post, queue, now);
  }

  /**
   * The ladder does not shift every entry of the queue: a movable post moves exactly when it sits
   * within the first |movable| + 2 upcoming slots, and then strictly later.
   */
  lemma LadderMovesTheFirstFew(cfg: Config, db: Db, post: int, queue: int, now: Instant, p: int)
    requires WellFormed(cfg.calendarOf(cfg.accountOf(queue)))
    requires var l := LadderOf(cfg, db, post, queue, now); l.NeedsLadder() && l.Fits() && p in l.Movable()
    ensures var l, k := LadderOf(cfg, db, post, queue, now), ChildKey(p, cfg.accountOf(queue));
      var after := Step(cfg, db, Event(Prioritize(post, queue), now)).children;
      && k in after && after[k].scheduledAt.Some?
      && (after[k].scheduledAt != db.children[k].scheduledAt <==> l.Held(p) in Take(l.all, |l.Movable()| + 2))
      && after[k].scheduledAt.value >= l.Held(p)
  {
    var l := LadderOf(cfg, db, post, queue, now);
    UpcomingAscends(cfg.calendarOf(l.account), now);
    if p in l.Movers() {
      MoversAreFree(l, p);
      FirstFreeAfterIsNext(l.all, l.Held(p), l.Fixed());
    }
  }

  /** Add raises only when at least eight instants per active slot are taken on the channel. */
  lemma AddFullNeedsManyBookings(cfg: Config, db: Db, post: int, queue: int, now: Instant)
    requires WellFormed(cfg.calendarOf(cfg.accountOf(queue)))
    requires AddDb(cfg, db, post, queue, now).Full?
    ensures |Occupied(db.children, cfg.accountOf(queue), now, ChildKey(post, cfg.accountOf(queue)))| >=
            8 * |cfg.calendarOf(cfg.accountOf(queue)).slots|
  {
    var account := cfg.accountOf(queue);
    var occupied := Occupied(db.children, account, now, ChildKey(post, account));
    if |occupied| < 8 * |cfg.calendarOf(account).slots| {
      FreeSlotWhenSparse(cfg.calendarOf(account), now, occupied);
    }
  }

  /**
   * Add puts the post on the earliest upcoming slot that no other post of the channel claims, and
   * moves nobody else; a post without a child on the channel gets the entry alone.
   */
  lemma AddTakesEarliestGap(cfg: Config, db: Db, post: int, queue: int, now: Instant)
    requires WellFormed(cfg.calendarOf(cfg.accountOf(queue)))
    requires !IsProtected(db.children, ChildKey(post, cfg.accountOf(queue)))
    ensures var account := cfg.accountOf(queue);
      var k, all := ChildKey(post, account), Upcoming(cfg.calendarOf(account), now);
      match AddDb(cfg, db, post, queue, now)
      case Full => forall x | x in all :: x in Occupied(db.children, account, now, k)
      case Done(db') =>
        && (exists x :: x in all && x !in Occupied(db.children, account, now, k) &&
             (forall y | y in all && y < x :: y in Occupied(db.children, account, now, k)) &&
             db'.children == (if k in db.children then db.children[k := db.children[k].(scheduledAt := Some(x))]
               else db.children) &&
             db'.entries[EntryKey(queue, post)].slotAt == Some(x))
  {
    var account := cfg.accountOf(queue);
    var k, all := ChildKey(post, account), Upcoming(cfg.calendarOf(account), now);
    var occupied := Occupied(db.children, account, now, k);
    UpcomingAscends(cfg.calendarOf(account), now);
    FirstFreeIsEarliest(all, occupied);
    match FirstFree(all, occupied)
    case None =>
    case Some(x) =>
      PlaceOneMoreChild(db.children, account, map[], post, x);
      assert PlaceChildren(db.children, account, map[]) == db.children;
      assert map[post := x] == map[][post := x];
  }
}
