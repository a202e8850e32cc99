/** What each queue operation does to every row, said in the fields of the rows and the upcoming slots. */
module QueueEffects {
  import opened Prelude
  import opened PostingSlots
  import opened Availability
  import opened ScheduleStore
  import opened QueueOps
  import opened QueueReorder
  import opened SchedulerRuns

  /** A child that is neither published nor being published, with the future time x. */
  ghost predicate Claims(db: Db, k: ChildKey, now: Instant, x: Instant) {
    k in db.children && db.children[k].status != Published && db.children[k].status != Publishing &&
    db.children[k].scheduledAt == Some(x) && now < x
  }

  /** Another post of the channel claims x. */
  ghost predicate Taken(db: Db, account: int, post: int, now: Instant, x: Instant) {
    exists k: ChildKey :: k.account == account && k.post != post && Claims(db, k, now, x)
  }

  lemma OccupiedIsTaken(db: Db, account: int, post: int, now: Instant, x: Instant)
    ensures x in Occupied(db.children, account, now, ChildKey(post, account)) <==> Taken(db, account, post, now, x)
  {
    if k: ChildKey :| k.account == account && k.post != post && Claims(db, k, now, x) {
      assert Blocks(db.children[k], now) && k != ChildKey(post, account);
    }
    if x in Occupied(db.children, account, now, ChildKey(post, account)) {
      var k :| k in db.children && k.account == account && k != ChildKey(post, account) &&
        Blocks(db.children[k], now) && db.children[k].scheduledAt.value == x;
      assert Claims(db, k, now, x) && k.post != post;
    }
  }

  /** The upcoming slot x is the earliest that no other post claims. */
  ghost predicate EarliestGap(db: Db, account: int, post: int, now: Instant, all: seq<Instant>, x: Instant) {
    x in all && !Taken(db, account, post, now, x) && forall y | y in all && y < x :: Taken(db, account, post, now, y)
  }

  /** The position after the last of the queue; the first is 1. */
  ghost predicate GoesLast(entries: map<EntryKey, QueueEntry>, queue: int, position: int) {
    && (forall e | e in entries && e.queue == queue :: entries[e].position < position)
    && (position == 1 || exists e :: e in entries && e.queue == queue && entries[e].position + 1 == position)
  }

  lemma NextPositionGoesLast(entries: map<EntryKey, QueueEntry>, queue: int)
    ensures GoesLast(entries, queue, NextPosition(entries, queue))
  {
    var positions := set e | e in entries && e.queue == queue :: entries[e].position as int;
    forall e | e in entries && e.queue == queue ensures entries[e].position < NextPosition(entries, queue) {
      assert entries[e].position as int in positions;
    }
    if positions != {} {
      var e :| e in entries && e.queue == queue && entries[e].position as int == MaxOf(positions);
    }
  }

  /**
   * The planned posts' children on the channel and entries in the queue take their planned times,
   * their parents show the least time of their children, and the post has an entry, a new one at
   * the end. No other field of any row changes.
   */
  ghost predicate Written(db: Db, after: Db, account: int, queue: int, post: int, plan: map<int, Instant>) {
    var own := EntryKey(queue, post);
    && after.children.Keys == db.children.Keys
    && (forall k | k in db.children ::
         after.children[k] == if k.account == account && k.post in plan
           then db.children[k].(scheduledAt := Some(plan[k.post])) else db.children[k])
    && after.entries.Keys == db.entries.Keys + {own}
    && (forall e | e in db.entries ::
         after.entries[e] == if e.queue == queue && e.post in plan
           then db.entries[e].(slotAt := Some(plan[e.post])) else db.entries[e])
    && (own !in db.entries ==> GoesLast(db.entries, queue, after.entries[own].position))
    && (own !in db.entries ==> post in plan && after.entries[own].slotAt == Some(plan[post]))
    && after.parents.Keys == db.parents.Keys
    && (forall p | p in db.parents ::
         if p in plan && ChildKey(p, account) in db.children then IsLeastTime(after.children, p, after.parents[p])
         else after.parents[p] == db.parents[p])
  }

  lemma AssignWrites(db: Db, account: int, queue: int, post: int, plan: map<int, Instant>)
    requires post in plan
    ensures var after := Assign(db.(entries := EnsureEntry(db.entries, queue, post)), account, queue, plan);
      Written(db, after, account, queue, post, plan)
  {
    var after := Assign(db.(entries := EnsureEntry(db.entries, queue, post)), account, queue, plan);
    NextPositionGoesLast(db.entries, queue);
    forall p | p in db.parents && p in plan && ChildKey(p, account) in db.children
      ensures IsLeastTime(after.children, p, after.parents[p])
    {
      EarliestIsLeastTime(after.children, p, after.parents[p]);
    }
  }

  // ----- add

  /**
   * Add writes the earliest upcoming slot that no other post of the channel claims to the post's
   * child, entry and parent; it raises exactly when others claim every slot, and leaves a
   * published or publishing post alone.
   */
  lemma AddEffect(cfg: Config, db: Db, post: int, queue: int, now: Instant)
    requires WellFormed(cfg.calendarOf(cfg.accountOf(queue)))
    ensures var account := cfg.accountOf(queue);
      var own, all := ChildKey(post, account), Upcoming(cfg.calendarOf(account), now);
      if own in db.children && (db.children[own].status == Published || db.children[own].status == Publishing) then
        AddDb(cfg, db, post, queue, now) == Done(db)
      else match AddDb(cfg, db, post, queue, now)
        case Full => forall x | x in all :: Taken(db, account, post, now, x)
        case Done(after) => exists x ::
          EarliestGap(db, account, post, now, all, x) && Written(db, after, account, queue, post, map[post := x])
    ensures forall op | op == Add(post, queue) || op == Reslot(EntryKey(queue, post)) ::
      Step(cfg, db, Event(op, now)) ==
        match AddDb(cfg, db, post, queue, now)
        case Full => db
        case Done(after) => after
  {
    var account := cfg.accountOf(queue);
    var own, all := ChildKey(post, account), Upcoming(cfg.calendarOf(account), now);
    UpcomingAscends(cfg.calendarOf(account), now);
    FirstFreeIsGap(db, account, post, now, all);
    match FirstFree(all, Occupied(db.children, account, now, own))
    case None =>
    case Some(x) => AssignWrites(db, account, queue, post, map[post := x]);
  }

  lemma FirstFreeIsGap(db: Db, account: int, post: int, now: Instant, all: seq<Instant>)
    requires Ascending(all)
    ensures match FirstFree(all, Occupied(db.children, account, now, ChildKey(post, account)))
      case None => forall x | x in all :: Taken(db, account, post, now, x)
      case Some(x) => EarliestGap(db, account, post, now, all, x)
  {
    var occupied := Occupied(db.children, account, now, ChildKey(post, account));
    forall x ensures x in occupied <==> Taken(db, account, post, now, x) {
      OccupiedIsTaken(db, account, post, now, x);
    }
    FirstFreeIsEarliest(all, occupied);
  }

  // ----- prioritize

  /** Another post of this queue that claims x. */
  ghost predicate Waits(db: Db, account: int, queue: int, post: int, now: Instant, p: int, x: Instant) {
    p != post && EntryKey(queue, p) in db.entries && Claims(db, ChildKey(p, account), now, x)
  }

  ghost function Waiting(db: Db, account: int, queue: int, post: int, now: Instant): set<int> {
    set e | e in db.entries && (exists x :: Waits(db, account, queue, post, now, e.post, x)) && e.queue == queue ::
      e.post
  }

  /** It waits on one of the first (waiting + 2) upcoming slots. */
  ghost predicate Climbs(l: Ladder, p: int, x: Instant) {
    && Waits(l.db, l.account, l.queue, l.post, l.now, p, x)
    && exists i :: 0 <= i < |l.all| && i < |Waiting(l.db, l.account, l.queue, l.post, l.now)| + 2 && l.all[i] == x
  }

  /** Claimed, and not by a post that climbs. */
  ghost predicate Held(l: Ladder, x: Instant) {
    Taken(l.db, l.account, l.post, l.now, x) && forall p :: !Climbs(l, p, x)
  }

  /** The first upcoming slot after x that no post keeps. */
  ghost predicate NextSlot(l: Ladder, x: Instant, y: Instant) {
    y in l.all && x < y && !Held(l, y) && forall z | z in l.all && x < z < y :: Held(l, z)
  }

  lemma MovableWait(l: Ladder)
    ensures forall p, x :: Waits(l.db, l.account, l.queue, l.post, l.now, p, x) <==> p in l.Movable() && l.Held(p) == x
    ensures l.Movable() == Waiting(l.db, l.account, l.queue, l.post, l.now)
  {
    forall p, x
      ensures Waits(l.db, l.account, l.queue, l.post, l.now, p, x) <==> p in l.Movable() && l.Held(p) == x
    {
      if Waits(l.db, l.account, l.queue, l.post, l.now, p, x) {
        assert EntryKey(l.queue, p) in l.db.entries && Blocks(l.db.children[ChildKey(p, l.account)], l.now);
      }
    }
    forall p ensures p in l.Movable() <==> p in Waiting(l.db, l.account, l.queue, l.post, l.now) {
      if p in l.Movable() {
        assert Waits(l.db, l.account, l.queue, l.post, l.now, EntryKey(l.queue, p).post, l.Held(p));
      }
    }
  }

  lemma MoversClimb(l: Ladder)
    ensures forall p, x :: Climbs(l, p, x) <==> p in l.Movers() && l.Held(p) == x
  {
    MovableWait(l);
    var first := Take(l.all, |l.Movable()| + 2);
    forall x ensures x in first <==> exists i :: 0 <= i < |l.all| && i < |l.Movable()| + 2 && l.all[i] == x {
      if i :| 0 <= i < |l.all| && i < |l.Movable()| + 2 && l.all[i] == x { assert first[i] == x; }
    }
  }

  lemma FixedAreHeld(l: Ladder)
    ensures forall x :: x in l.Fixed() <==> Held(l, x)
  {
    MoversClimb(l);
    forall x ensures x in l.Fixed() <==> Held(l, x) {
      OccupiedIsTaken(l.db, l.account, l.post, l.now, x);
      if x in l.HeldBy(l.Movers()) {
        var p :| p in l.Movers() && l.Held(p) == x;
        assert Climbs(l, p, x);
      }
    }
  }

  lemma RungIsNextSlot(l: Ladder, p: int)
    requires Ascending(l.all) && p in l.Movers()
    ensures match l.NextRung(p)
      case None => forall y | y in l.all && l.Held(p) < y :: Held(l, y)
      case Some(y) => NextSlot(l, l.Held(p), y)
  {
    FixedAreHeld(l);
    FirstFreeAfterIsNext(l.all, l.Held(p), l.Fixed());
  }

  /**
   * What the plan of a ladder says: the prioritized post takes the first slot, and every post that
   * waits within the first few slots goes to the first later slot that no other post keeps.
   */
  ghost predicate LaddersUp(l: Ladder, plan: map<int, Instant>) {
    && l.all != [] && l.post in plan && plan[l.post] == l.all[0]
    && (forall p :: p in plan <==> p == l.post || exists x :: Climbs(l, p, x))
    && forall p, x | Climbs(l, p, x) :: p in plan && NextSlot(l, x, plan[p])
  }

  lemma PlanLaddersUp(l: Ladder)
    requires Ascending(l.all) && l.all != [] && l.Fits()
    ensures LaddersUp(l, l.Plan())
  {
    MoversClimb(l);
    forall p ensures p in l.Plan() <==> p == l.post || exists x :: Climbs(l, p, x) {
      if p in l.Movers() { assert Climbs(l, p, l.Held(p)); }
    }
    forall p, x | Climbs(l, p, x) ensures p in l.Plan() && NextSlot(l, x, l.Plan()[p]) {
      MoversAreFree(l, p);
      RungIsNextSlot(l, p);
    }
  }

  /** A post climbs that has no slot to go to: all later ones are kept by others. */
  ghost predicate NoWayUp(l: Ladder) {
    exists p, x :: Climbs(l, p, x) && forall y | y in l.all && x < y :: Held(l, y)
  }

  lemma MisfitHasNoWayUp(l: Ladder)
    requires Ascending(l.all)
    ensures !l.Fits() <==> NoWayUp(l)
  {
    MoversClimb(l);
    if p :| p in l.Movers() && l.NextRung(p).None? {
      RungIsNextSlot(l, p);
      assert Climbs(l, p, l.Held(p));
    }
    if p, x :| Climbs(l, p, x) && forall y | y in l.all && x < y :: Held(l, y) {
      RungIsNextSlot(l, p);
    }
  }

  /**
   * Prioritize writes the whole ladder when a post of the queue waits on the first upcoming slot,
   * and otherwise puts the post on the earliest gap; it raises exactly when there is no slot, no
   * way up, or no gap.
   */
  lemma PrioritizeEffect(cfg: Config, db: Db, post: int, queue: int, now: Instant)
    requires WellFormed(cfg.calendarOf(cfg.accountOf(queue)))
    ensures var account, out := cfg.accountOf(queue), PrioritizeDb(cfg, db, post, queue, now);
      var l := Ladder(db, account, queue, post, now, Upcoming(cfg.calendarOf(account), now));
      if l.all == [] then out == Full
      else if exists p :: Waits(db, l.account, queue, post, now, p, l.all[0]) then
        match out
        case Full => NoWayUp(l)
        case Done(after) => exists plan :: LaddersUp(l, plan) && Written(db, after, l.account, queue, post, plan)
      else
        match out
        case Full => forall x | x in l.all :: Taken(db, l.account, post, now, x)
        case Done(after) => exists x ::
          EarliestGap(db, l.account, post, now, l.all, x) && Written(db, after, l.account, queue, post, map[post := x])
    ensures Step(cfg, db, Event(Prioritize(post, queue), now)) ==
      match PrioritizeDb(cfg, db, post, queue, now)
      case Full => db
      case Done(after) => after
  {
    var l := LadderOf(cfg, db, post, queue, now);
    UpcomingAscends(cfg.calendarOf(l.account), now);
    if l.all != [] {
      MovableWait(l);
      assert l.NeedsLadder() <==> exists p :: Waits(db, l.account, queue, post, now, p, l.all[0]);
      if l.NeedsLadder() {
        MisfitHasNoWayUp(l);
        if l.Fits() {
          PlanLaddersUp(l);
          AssignWrites(db, l.account, queue, post, l.Plan());
        }
      } else {
        FirstFreeIsGap(db, l.account, post, now, l.all);
        match FirstFree(l.all, l.Occupied())
        case None =>
        case Some(x) => AssignWrites(db, l.account, queue, post, map[post := x]);
      }
    }
  }

  // ----- remove

  /**
   * Remove deletes the entry. A child whose status may become a draft becomes one without a time,
   * and then leaves the channel's other queues too; the parent shows the least time of its
   * children, and nothing else changes.
   */
  lemma RemoveEffect(cfg: Config, db: Db, e: EntryKey, now: Instant)
    ensures Step(cfg, db, Event(Remove(e), now)) == RemoveDb(cfg, db, e)
    ensures var k, after := ChildKey(e.post, cfg.accountOf(e.queue)), RemoveDb(cfg, db, e);
      var drafted := k in db.children &&
        db.children[k].status in {Approved, ChangesRequested, Rejected, Scheduled, Failed, OnHold};
      && e !in after.entries
      && (forall f | f != e :: f in after.entries <==>
           f in db.entries && !(drafted && f.post == e.post && cfg.accountOf(f.queue) == k.account))
      && (forall f | f in after.entries :: after.entries[f] == db.entries[f])
      && after.children.Keys == db.children.Keys
      && (drafted ==> after.children[k] == PlatformPost(Draft, None, db.children[k].publishedAt))
      && (forall j | j in db.children && !(j == k && drafted) :: after.children[j] == db.children[j])
      && after.parents.Keys == db.parents.Keys
      && forall p | p in db.parents ::
           if p == e.post then IsLeastTime(after.children, p, after.parents[p]) else after.parents[p] == db.parents[p]
  {
    var after := RemoveDb(cfg, db, e);
    if e.post in db.parents { EarliestIsLeastTime(after.children, e.post, after.parents[e.post]); }
  }

  // ----- reorder

  /** An entry of the queue whose post is neither published nor being published on the channel. */
  ghost predicate Draggable(db: Db, account: int, queue: int, e: EntryKey) {
    && e in db.entries && e.queue == queue
    && (ChildKey(e.post, account) in db.children ==>
         db.children[ChildKey(e.post, account)].status != Published &&
         db.children[ChildKey(e.post, account)].status != Publishing)
  }

  /** A draggable entry named by the request whose post holds the time x. */
  ghost predicate Dealt(db: Db, account: int, queue: int, ids: seq<EntryKey>, e: EntryKey, x: Instant) {
    e in ids && Draggable(db, account, queue, e) &&
    ChildKey(e.post, account) in db.children && db.children[ChildKey(e.post, account)].scheduledAt == Some(x)
  }

  ghost function Holders(db: Db, account: int, queue: int, ids: seq<EntryKey>, x: Instant): set<EntryKey> {
    set e | e in ids && Dealt(db, account, queue, ids, e, x)
  }

  /** How many draggable entries the request names before its i-th. */
  ghost function DraggableBefore(db: Db, account: int, queue: int, ids: seq<EntryKey>, i: nat): nat
    requires i <= |ids|
  {
    |set j: nat | j < i && Draggable(db, account, queue, ids[j])|
  }

  lemma {:induction false} NamedAreDraggable(db: Db, account: int, queue: int, ids: seq<EntryKey>)
    ensures forall e :: e in Named(db, account, queue, ids) <==> e in ids && Draggable(db, account, queue, e)
  {
    if ids == [] {
    } else {
      NamedAreDraggable(db, account, queue, ids[..|ids| - 1]);
      assert ids == ids[..|ids| - 1] + [ids[|ids| - 1]];
    }
  }

  lemma DraggableBeforeGrows(db: Db, account: int, queue: int, ids: seq<EntryKey>, i: nat)
    requires i < |ids|
    ensures DraggableBefore(db, account, queue, ids, i + 1) ==
            DraggableBefore(db, account, queue, ids, i) + if Draggable(db, account, queue, ids[i]) then 1 else 0
  {
    var less := set j: nat | j < i && Draggable(db, account, queue, ids[j]);
    var more := set j: nat | j < i + 1 && Draggable(db, account, queue, ids[j]);
    assert more == less + if Draggable(db, account, queue, ids[i]) then {i} else {};
  }

  /** The named entries are the draggable ones, each at the number of those before it. */
  lemma {:induction false} NamedAt(db: Db, account: int, queue: int, ids: seq<EntryKey>, n: nat, i: nat)
    requires n <= |ids|
    ensures |Named(db, account, queue, ids[..n])| == DraggableBefore(db, account, queue, ids, n)
    ensures i < n && Draggable(db, account, queue, ids[i]) ==>
              DraggableBefore(db, account, queue, ids, i) < DraggableBefore(db, account, queue, ids, n) &&
              Named(db, account, queue, ids[..n])[DraggableBefore(db, account, queue, ids, i)] == ids[i]
  {
    if n == 0 {
    } else {
      NamedAt(db, account, queue, ids, n - 1, i);
      DraggableBeforeGrows(db, account, queue, ids, n - 1);
      assert ids[..n][..n - 1] == ids[..n - 1] && ids[..n][n - 1] == ids[n - 1];
    }
  }

  lemma {:induction false} SlottedPrefix(db: Db, account: int, named: seq<EntryKey>, n: nat)
    requires n <= |named|
    ensures Slotted(db, account, named[..n]) <= Slotted(db, account, named)
  {
    if n == |named| {
      assert named[..n] == named;
    } else {
      SlottedPrefix(db, account, named[..|named| - 1], n);
      assert named[..|named| - 1][..n] == named[..n];
    }
  }

  /** Where a slotted post sits among the slotted ones. */
  lemma SlottedAt(db: Db, account: int, named: seq<EntryKey>, a: nat) returns (i: nat)
    requires a < |named| && HoldsSlot(db, account, named[a].post)
    ensures i == |Slotted(db, account, named[..a])| < |Slotted(db, account, named[..a + 1])|
    ensures i < |Slotted(db, account, named)| && Slotted(db, account, named)[i] == named[a].post
  {
    i := |Slotted(db, account, named[..a])|;
    assert named[..a + 1] == named[..a] + [named[a]];
    SlottedSnoc(db, account, named[..a], named[a]);
    SlottedPrefix(db, account, named, a + 1);
  }

  lemma SlottedInOrder(db: Db, account: int, named: seq<EntryKey>, a: nat, b: nat) returns (i: nat, j: nat)
    requires a < b < |named| && HoldsSlot(db, account, named[a].post) && HoldsSlot(db, account, named[b].post)
    ensures i < j < |Slotted(db, account, named)|
    ensures Slotted(db, account, named)[i] == named[a].post && Slotted(db, account, named)[j] == named[b].post
  {
    i := SlottedAt(db, account, named, a);
    j := SlottedAt(db, account, named, b);
    SlottedPrefix(db, account, named[..b], a + 1);
    assert named[..b][..a + 1] == named[..a + 1];
  }

  ghost function HoldersAmong(db: Db, account: int, named: seq<EntryKey>, x: Instant): set<EntryKey> {
    set e | e in named && HoldsSlot(db, account, e.post) && SlotHeld(db, account, e.post) == x
  }

  lemma OneMoreHolder(db: Db, account: int, front: seq<EntryKey>, e: EntryKey, x: Instant)
    requires e !in front
    ensures |HoldersAmong(db, account, front + [e], x)| == |HoldersAmong(db, account, front, x)| +
              if HoldsSlot(db, account, e.post) && SlotHeld(db, account, e.post) == x then 1 else 0
  {
    assert HoldersAmong(db, account, front + [e], x) == HoldersAmong(db, account, front, x) +
      if HoldsSlot(db, account, e.post) && SlotHeld(db, account, e.post) == x then {e} else {};
  }

  /** The times the named entries hold, in their order. */
  ghost function TimesAmong(db: Db, account: int, named: seq<EntryKey>): seq<Instant> {
    if named == [] then [] else
      var e := named[|named| - 1];
      TimesAmong(db, account, named[..|named| - 1]) +
      if HoldsSlot(db, account, e.post) then [SlotHeld(db, account, e.post)] else []
  }

  lemma {:induction false} TimesAmongAreTimes(db: Db, account: int, named: seq<EntryKey>)
    ensures forall p | p in Slotted(db, account, named) :: HoldsSlot(db, account, p)
    ensures TimesAmong(db, account, named) == Times(db, account, Slotted(db, account, named))
  {
    SlottedHold(db, account, named);
    if named == [] {
    } else {
      var front, e := named[..|named| - 1], named[|named| - 1];
      TimesAmongAreTimes(db, account, front);
      if HoldsSlot(db, account, e.post) {
        var posts := Slotted(db, account, front);
        assert (posts + [e.post])[..|posts|] == posts;
      }
    }
  }

  /** As many named entries hold x as the list of held times holds it. */
  lemma {:induction false} CountHolders(db: Db, account: int, named: seq<EntryKey>, x: Instant)
    requires Unique(named)
    ensures |HoldersAmong(db, account, named, x)| == multiset(TimesAmong(db, account, named))[x]
  {
    if named == [] {
      assert HoldersAmong(db, account, named, x) == {};
    } else {
      var front, e := named[..|named| - 1], named[|named| - 1];
      assert named == front + [e];
      CountHolders(db, account, front, x);
      OneMoreHolder(db, account, front, e, x);
    }
  }

  lemma HoldersAreCounted(db: Db, account: int, queue: int, ids: seq<EntryKey>, x: Instant)
    requires Unique(ids)
    ensures var posts := Slotted(db, account, Named(db, account, queue, ids));
      && (forall p | p in posts :: HoldsSlot(db, account, p))
      && |Holders(db, account, queue, ids, x)| == multiset(Times(db, account, posts))[x]
  {
    var named := Named(db, account, queue, ids);
    NamedAreDraggable(db, account, queue, ids);
    NamedUnique(db, account, queue, ids);
    CountHolders(db, account, named, x);
    TimesAmongAreTimes(db, account, named);
    assert Holders(db, account, queue, ids, x) == HoldersAmong(db, account, named, x);
  }

  /** Each instant is held by as many of the named entries as before. */
  lemma ReorderConserves(cfg: Config, db: Db, queue: int, ids: seq<EntryKey>, x: Instant)
    requires Unique(ids)
    ensures var account, after := cfg.accountOf(queue), ReorderDb(cfg, db, queue, ids);
      |Holders(after, account, queue, ids, x)| == |Holders(db, account, queue, ids, x)|
  {
    var account, after := cfg.accountOf(queue), ReorderDb(cfg, db, queue, ids);
    HoldersAreCounted(db, account, queue, ids, x);
    HoldersAreCounted(after, account, queue, ids, x);
    TimesOfReordered(cfg, db, queue, ids);
    ReorderPermutes(cfg, db, queue, ids);
  }

  /** The earlier named of two posts that hold a time ends no later than the other. */
  lemma ReorderFollowsTheRequest(cfg: Config, db: Db, queue: int, ids: seq<EntryKey>, i: nat, j: nat,
                                 x: Instant, y: Instant)
    requires Unique(ids) && i < j < |ids|
    requires var account, after := cfg.accountOf(queue), ReorderDb(cfg, db, queue, ids);
      Dealt(after, account, queue, ids, ids[i], x) && Dealt(after, account, queue, ids, ids[j], y)
    ensures x <= y
  {
    var account, after := cfg.accountOf(queue), ReorderDb(cfg, db, queue, ids);
    var named := Named(after, account, queue, ids);
    assert ids[..|ids|] == ids;
    NamedAt(after, account, queue, ids, |ids|, i);
    NamedAt(after, account, queue, ids, |ids|, j);
    NamedAt(after, account, queue, ids, j, i);
    var a, b := SlottedInOrder(after, account, named, DraggableBefore(after, account, queue, ids, i),
      DraggableBefore(after, account, queue, ids, j));
    TimesOfReordered(cfg, db, queue, ids);
    ReorderPermutes(cfg, db, queue, ids);
  }

  lemma DealtAreSlotted(db: Db, account: int, queue: int, ids: seq<EntryKey>, p: int)
    ensures p in Slotted(db, account, Named(db, account, queue, ids)) <==>
            exists x :: Dealt(db, account, queue, ids, EntryKey(queue, p), x)
  {
    var named := Named(db, account, queue, ids);
    NamedAreDraggable(db, account, queue, ids);
    if p in Slotted(db, account, named) {
      NamedHold(db, account, queue, ids);
      SlottedAreNamed(db, account, named);
      var e :| e in named && e.post == p;
      assert e == EntryKey(queue, p) && Dealt(db, account, queue, ids, e, SlotHeld(db, account, p));
    }
    if x :| Dealt(db, account, queue, ids, EntryKey(queue, p), x) {
      var a :| 0 <= a < |named| && named[a] == EntryKey(queue, p);
      var i := SlottedAt(db, account, named, a);
    }
  }

  /**
   * Reordering distinct ids changes only what it names: the times of the children and entries
   * that hold one, the parents of those, and the positions of the draggable entries, numbered in
   * the order of the request. Times stay times, and a child's entry shows its child's.
   */
  lemma ReorderTouches(cfg: Config, db: Db, queue: int, ids: seq<EntryKey>, now: Instant)
    requires Unique(ids)
    ensures Step(cfg, db, Event(Reorder(queue, ids), now)) == ReorderDb(cfg, db, queue, ids)
    ensures var account, after := cfg.accountOf(queue), ReorderDb(cfg, db, queue, ids);
      && after.children.Keys == db.children.Keys && after.entries.Keys == db.entries.Keys
      && (forall k | k in db.children :: ChildReordered(db, after, account, queue, ids, k))
      && (forall e | e in db.entries :: EntryReordered(db, after, account, queue, ids, e))
      && after.parents.Keys == db.parents.Keys
      && forall p | p in db.parents ::
           if exists x :: Dealt(db, account, queue, ids, EntryKey(queue, p), x)
           then IsLeastTime(after.children, p, after.parents[p])
           else after.parents[p] == db.parents[p]
  {
    var account, after := cfg.accountOf(queue), ReorderDb(cfg, db, queue, ids);
    ReorderFrame(cfg, db, queue, ids);
    forall k | k in db.children ensures ChildReordered(db, after, account, queue, ids, k) {
      ChildIsReordered(cfg, db, queue, ids, k);
    }
    forall e | e in db.entries ensures EntryReordered(db, after, account, queue, ids, e) {
      EntryIsReordered(cfg, db, queue, ids, e);
    }
    forall p | p in db.parents ensures
      if exists x :: Dealt(db, account, queue, ids, EntryKey(queue, p), x)
      then IsLeastTime(after.children, p, after.parents[p])
      else after.parents[p] == db.parents[p]
    {
      ParentIsReordered(cfg, db, queue, ids, p);
    }
  }

  ghost predicate ChildReordered(db: Db, after: Db, account: int, queue: int, ids: seq<EntryKey>, k: ChildKey) {
    && k in db.children && k in after.children
    && if k.account == account && exists x :: Dealt(db, account, queue, ids, EntryKey(queue, k.post), x)
       then after.children[k].scheduledAt.Some? &&
         after.children[k] == db.children[k].(scheduledAt := after.children[k].scheduledAt)
       else after.children[k] == db.children[k]
  }

  lemma ChildIsReordered(cfg: Config, db: Db, queue: int, ids: seq<EntryKey>, k: ChildKey)
    requires k in db.children
    ensures ChildReordered(db, ReorderDb(cfg, db, queue, ids), cfg.accountOf(queue), queue, ids, k)
  {
    var account := cfg.accountOf(queue);
    DealtAreSlotted(db, account, queue, ids, k.post);
    ReorderFrame(cfg, db, queue, ids);
    var posts, times, slots := ReorderHolding(db, account, queue, ids);
    DealtPosts(posts, slots);
    ReorderChildren(cfg, db, queue, ids);
  }

  ghost predicate EntryReordered(db: Db, after: Db, account: int, queue: int, ids: seq<EntryKey>, e: EntryKey) {
    && e in db.entries && e in after.entries
    && (if exists x :: Dealt(db, account, queue, ids, e, x)
        then ChildKey(e.post, account) in after.children &&
          after.entries[e].slotAt == after.children[ChildKey(e.post, account)].scheduledAt
        else after.entries[e].slotAt == db.entries[e].slotAt)
    && (e in ids && Draggable(db, account, queue, e) ==>
         exists i: nat :: i < |ids| && ids[i] == e &&
           after.entries[e].position == DraggableBefore(db, account, queue, ids, i))
    && (!(e in ids && Draggable(db, account, queue, e)) ==> after.entries[e].position == db.entries[e].position)
  }

  lemma EntryIsReordered(cfg: Config, db: Db, queue: int, ids: seq<EntryKey>, e: EntryKey)
    requires Unique(ids) && e in db.entries
    ensures EntryReordered(db, ReorderDb(cfg, db, queue, ids), cfg.accountOf(queue), queue, ids, e)
  {
    var account, after := cfg.accountOf(queue), ReorderDb(cfg, db, queue, ids);
    ReorderFrame(cfg, db, queue, ids);
    NamedAreDraggable(db, account, queue, ids);
    SlotIsReordered(cfg, db, queue, ids, e);
    if e in ids && Draggable(db, account, queue, e) {
      var i: nat :| i < |ids| && ids[i] == e;
      assert ids[..|ids|] == ids;
      NamedAt(db, account, queue, ids, |ids|, i);
      NumberedInOrder(cfg, db, queue, ids);
    }
  }

  lemma SlotIsReordered(cfg: Config, db: Db, queue: int, ids: seq<EntryKey>, e: EntryKey)
    requires e in db.entries
    ensures var account, after := cfg.accountOf(queue), ReorderDb(cfg, db, queue, ids);
      && e in after.entries
      && if exists x :: Dealt(db, account, queue, ids, e, x)
        then ChildKey(e.post, account) in after.children &&
          after.entries[e].slotAt == after.children[ChildKey(e.post, account)].scheduledAt
        else after.entries[e].slotAt == db.entries[e].slotAt
  {
    var account := cfg.accountOf(queue);
    var posts, times, slots := ReorderHolding(db, account, queue, ids);
    DealtPosts(posts, slots);
    DealtAreSlotted(db, account, queue, ids, e.post);
    NamedAreEntries(db, account, queue, ids);
    ReorderChildren(cfg, db, queue, ids);
    var dealt := Assign(db, account, queue, Deal(posts, slots));
    RenumberFrame(dealt.entries, db.entries, Named(db, account, queue, ids));
    if e.queue == queue { assert e == EntryKey(queue, e.post); }
  }

  lemma ParentIsReordered(cfg: Config, db: Db, queue: int, ids: seq<EntryKey>, p: int)
    requires p in db.parents
    ensures var account, after := cfg.accountOf(queue), ReorderDb(cfg, db, queue, ids);
      && p in after.parents
      && if exists x :: Dealt(db, account, queue, ids, EntryKey(queue, p), x)
         then IsLeastTime(after.children, p, after.parents[p])
         else after.parents[p] == db.parents[p]
  {
    var account, after := cfg.accountOf(queue), ReorderDb(cfg, db, queue, ids);
    var posts, times, slots := ReorderHolding(db, account, queue, ids);
    DealtPosts(posts, slots);
    DealtAreSlotted(db, account, queue, ids, p);
    ReorderFrame(cfg, db, queue, ids);
    ReorderChildren(cfg, db, queue, ids);
    EarliestIsLeastTime(after.children, p, after.parents[p]);
  }
}
